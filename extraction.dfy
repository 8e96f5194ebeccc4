/**
 * Character extraction (`CharFrequencyAnalyzer.extract_chinese_chars`):
 * a regular-expression scan for the CJK Unified Ideographs block, followed
 * by an optional filter that drops CJK punctuation and fullwidth forms.
 */
module Extraction {

  /** The character class `[一-鿿]`. */
  predicate IsIdeograph(c: char) {
    '\U{4E00}' <= c <= '\U{9FFF}'
  }

  /** The character class `[　-〿＀-￯]`. */
  predicate IsCjkPunctuation(c: char) {
    ('\U{3000}' <= c <= '\U{303F}') || ('\U{FF00}' <= c <= '\U{FFEF}')
  }

  /** `re.findall(r'[一-鿿]', text)`: every single-character match, in order. */
  function FindIdeographs(text: string): (r: seq<char>)
    ensures |r| <= |text|
    ensures forall i :: 0 <= i < |r| ==> IsIdeograph(r[i])
  {
    if text == [] then []
    else if IsIdeograph(text[0]) then [text[0]] + FindIdeographs(text[1..])
    else FindIdeographs(text[1..])
  }

  /** The list comprehension keeping the characters the punctuation class does not match. */
  function DropPunctuation(chars: seq<char>): (r: seq<char>)
    ensures |r| <= |chars|
    ensures forall i :: 0 <= i < |r| ==> !IsCjkPunctuation(r[i]) && r[i] in chars
    ensures forall c :: !IsCjkPunctuation(c) ==> multiset(r)[c] == multiset(chars)[c]
  {
    if chars == [] then []
    else
      assert chars == [chars[0]] + chars[1..];
      if IsCjkPunctuation(chars[0]) then DropPunctuation(chars[1..])
      else [chars[0]] + DropPunctuation(chars[1..])
  }

  /** `extract_chinese_chars(text)` under the configured `exclude_punctuation` flag. */
  function ExtractChineseChars(text: string, excludePunctuation: bool): (r: seq<char>)
    ensures forall i :: 0 <= i < |r| ==> IsIdeograph(r[i])
  {
    var chars := FindIdeographs(text);
    if excludePunctuation then DropPunctuation(chars) else chars
  }

  /** The scan distributes over concatenation: extraction is a per-character filter. */
  lemma {:induction false} FindIdeographsConcat(a: string, b: string)
    ensures FindIdeographs(a + b) == FindIdeographs(a) + FindIdeographs(b)
  {
    if a != [] {
      assert (a + b)[1..] == a[1..] + b;
      FindIdeographsConcat(a[1..], b);
    } else {
      assert a + b == b;
    }
  }

  /** On a single character the scan keeps it exactly when it is an ideograph. */
  lemma FindIdeographsSingle(c: char)
    ensures FindIdeographs([c]) == if IsIdeograph(c) then [c] else []
  {
    assert [c][1..] == [];
  }

  /** Every character is kept as often as it occurs when it is an ideograph, and never otherwise. */
  lemma {:induction false} FindIdeographsCounts(text: string, c: char)
    ensures multiset(FindIdeographs(text))[c] == if IsIdeograph(c) then multiset(text)[c] else 0
  {
    if text != [] {
      assert text == [text[0]] + text[1..];
      FindIdeographsCounts(text[1..], c);
    }
  }

  /** The scan's output is a subsequence of the text: it picks characters at increasing positions. */
  lemma {:induction false} FindIdeographsSubsequence(text: string)
    ensures IsSubsequence(FindIdeographs(text), text)
  {
    if text == [] {
      assert PicksAt([], [], text);
    } else {
      FindIdeographsSubsequence(text[1..]);
      var r := FindIdeographs(text[1..]);
      var idx: seq<nat> :| PicksAt(idx, r, text[1..]);
      PicksAtTail(idx, r, text);
    }
  }

  /** Positions picked in `text[1..]` shift by one in `text`, optionally behind position 0. */
  lemma PicksAtTail(idx: seq<nat>, r: seq<char>, text: string)
    requires text != [] && PicksAt(idx, r, text[1..])
    ensures var shifted := seq(|idx|, k requires 0 <= k < |idx| => idx[k] + 1);
            PicksAt(shifted, r, text) && PicksAt([0] + shifted, [text[0]] + r, text)
  {
  }

  ghost predicate Increasing(idx: seq<nat>) {
    forall k, l :: 0 <= k < l < |idx| ==> idx[k] < idx[l]
  }

  /** `sub` is read off `s` at the strictly increasing positions `idx`. */
  ghost predicate PicksAt(idx: seq<nat>, sub: seq<char>, s: seq<char>) {
    |idx| == |sub| && Increasing(idx) &&
    forall k :: 0 <= k < |idx| ==> idx[k] < |s| && s[idx[k]] == sub[k]
  }

  /** `sub` is read off `s` at strictly increasing positions. */
  ghost predicate IsSubsequence(sub: seq<char>, s: seq<char>) {
    exists idx: seq<nat> :: PicksAt(idx, sub, s)
  }

  /** The two character classes share no code point. */
  lemma IdeographsAreNotPunctuation(c: char)
    ensures IsIdeograph(c) ==> !IsCjkPunctuation(c)
  {
  }

  /** The punctuation filter leaves a sequence of ideographs untouched. */
  lemma {:induction false} DropPunctuationKeepsIdeographs(chars: seq<char>)
    requires forall i :: 0 <= i < |chars| ==> IsIdeograph(chars[i])
    ensures DropPunctuation(chars) == chars
  {
    if chars != [] {
      IdeographsAreNotPunctuation(chars[0]);
      DropPunctuationKeepsIdeographs(chars[1..]);
      assert chars == [chars[0]] + chars[1..];
    }
  }

  /** `exclude_punctuation` has no effect on the extracted characters. */
  lemma PunctuationFilterIsNoOp(text: string)
    ensures ExtractChineseChars(text, true) == ExtractChineseChars(text, false)
  {
    DropPunctuationKeepsIdeographs(FindIdeographs(text));
  }

  /** Extracting again from the extracted characters changes nothing. */
  lemma {:induction false} ExtractIdempotent(text: string, excludePunctuation: bool)
    ensures var chars := ExtractChineseChars(text, excludePunctuation);
            ExtractChineseChars(chars, excludePunctuation) == chars
  {
    PunctuationFilterIsNoOp(text);
    var chars := FindIdeographs(text);
    FindIdeographsOfIdeographs(chars);
    PunctuationFilterIsNoOp(chars);
  }

  lemma {:induction false} FindIdeographsOfIdeographs(chars: seq<char>)
    requires forall i :: 0 <= i < |chars| ==> IsIdeograph(chars[i])
    ensures FindIdeographs(chars) == chars
  {
    if chars != [] {
      FindIdeographsOfIdeographs(chars[1..]);
      assert chars == [chars[0]] + chars[1..];
    }
  }
}
