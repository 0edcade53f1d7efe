/**
 * The match locator behind row highlighting: every word is searched in the
 * lowercased line, restarting each search just after the previous hit, and
 * the hits of all words are sorted and merged into disjoint, ascending
 * ranges (collectMatchesInText).
 */
module Highlight {
  import opened KotlinText

  /** Kotlin's IntRange: first..last, both ends included. */
  datatype Range = Range(first: int, last: int)

  function Max(a: int, b: int): int { if a >= b then a else b }

  predicate Covers(r: Range, p: int) {
    r.first <= p <= r.last
  }

  predicate Contained(inner: Range, outer: Range) {
    outer.first <= inner.first && inner.last <= outer.last
  }

  /** Every range is non-empty and lies inside [0, n - 1]. */
  predicate WithinText(rs: seq<Range>, n: int) {
    forall i :: 0 <= i < |rs| ==> 0 <= rs[i].first <= rs[i].last < n
  }

  /** Consecutive ranges leave at least one character between them. */
  predicate Separated(rs: seq<Range>) {
    forall i :: 0 <= i < |rs| - 1 ==> rs[i].last + 1 < rs[i + 1].first
  }

  /** Every range ends before any later range starts. */
  predicate Ascending(rs: seq<Range>) {
    forall i, j :: 0 <= i < j < |rs| ==> rs[i].last < rs[j].first
  }

  /** Separated non-empty ranges are ascending: each one ends before every later one starts. */
  lemma {:induction false} SeparatedAscending(rs: seq<Range>, n: int)
    requires Separated(rs) && WithinText(rs, n)
    ensures Ascending(rs)
    decreases |rs|
  {
    if rs != [] {
      var tail := rs[1..];
      assert Separated(tail) by {
        forall i | 0 <= i < |tail| - 1 ensures tail[i].last + 1 < tail[i + 1].first {
          assert tail[i] == rs[i + 1] && tail[i + 1] == rs[i + 2];
        }
      }
      assert WithinText(tail, n) by {
        forall i | 0 <= i < |tail| ensures 0 <= tail[i].first <= tail[i].last < n {
          assert tail[i] == rs[i + 1];
        }
      }
      SeparatedAscending(tail, n);
      forall i, j | 0 <= i < j < |rs| ensures rs[i].last < rs[j].first {
        if i == 0 {
          if j > 1 {
            assert rs[1] == tail[0] && rs[j] == tail[j - 1];
          }
        } else {
          assert rs[i] == tail[i - 1] && rs[j] == tail[j - 1];
        }
      }
    }
  }

  predicate SortedByFirst(rs: seq<Range>) {
    forall i, j :: 0 <= i < j < |rs| ==> rs[i].first <= rs[j].first
  }

  predicate WordsNonEmpty(words: seq<string>) {
    forall i :: 0 <= i < |words| ==> |words[i]| > 0
  }

  /** x lies inside some range of rs. */
  predicate InsideSome(x: Range, rs: seq<Range>) {
    exists k :: 0 <= k < |rs| && Contained(x, rs[k])
  }

  /** Some range of rs covers position p. */
  predicate CoveredBy(rs: seq<Range>, p: int) {
    exists i :: 0 <= i < |rs| && Covers(rs[i], p)
  }

  /**
   * The hits of one word, scanning from `from`: each search restarts at the
   * previous hit plus the word's length, so overlapping hits of the same word
   * are skipped.
   */
  function WordRanges(text: string, w: string, from: nat): (r: seq<Range>)
    requires |w| > 0
    ensures forall i :: 0 <= i < |r| ==>
      from <= r[i].first && r[i].last == r[i].first + |w| - 1 && r[i].first + |w| <= |text|
    decreases |text| - from
  {
    var k := IndexOf(text, w, from);
    if k < 0 then [] else [Range(k, k + |w| - 1)] + WordRanges(text, w, k + |w|)
  }

  /** A scan finds nothing exactly when the word does not occur after `from`. */
  lemma {:induction false} WordRangesEmpty(text: string, w: string, from: nat)
    requires |w| > 0
    ensures WordRanges(text, w, from) == [] <==> IndexOf(text, w, from) < 0
  {
  }

  /** Every hit of the scan is an occurrence of the word. */
  lemma {:induction false} WordRangesOccur(text: string, w: string, from: nat)
    requires |w| > 0
    ensures forall i :: 0 <= i < |WordRanges(text, w, from)| ==>
      OccursAt(text, w, WordRanges(text, w, from)[i].first)
    decreases |text| - from
  {
    var r := WordRanges(text, w, from);
    var k := IndexOf(text, w, from);
    if k >= 0 {
      WordRangesOccur(text, w, k + |w|);
      var tail := WordRanges(text, w, k + |w|);
      assert r == [Range(k, k + |w| - 1)] + tail;
      forall i | 1 <= i < |r| ensures OccursAt(text, w, r[i].first) {
        assert r[i] == tail[i - 1];
      }
    }
  }

  /** x is the span of an occurrence of one of the words. */
  predicate IsHit(x: Range, text: string, words: seq<string>) {
    exists j :: 0 <= j < |words| && OccursAt(text, words[j], x.first) && x.last == x.first + |words[j]| - 1
  }

  /** The hits of all words, word by word, in the order they are found. */
  function ScanRanges(text: string, words: seq<string>): (r: seq<Range>)
    requires WordsNonEmpty(words)
    ensures WithinText(r, |text|)
  {
    if words == [] then []
    else ScanRanges(text, words[..|words| - 1]) + WordRanges(text, words[|words| - 1], 0)
  }

  /** The scan is empty exactly when no word occurs in the text. */
  lemma {:induction false} ScanRangesEmpty(text: string, words: seq<string>)
    requires WordsNonEmpty(words)
    ensures ScanRanges(text, words) == [] <==> forall i :: 0 <= i < |words| ==> !Contains(text, words[i])
  {
    if words != [] {
      var init := words[..|words| - 1];
      var w := words[|words| - 1];
      ScanRangesEmpty(text, init);
      WordRangesEmpty(text, w, 0);
      IndexOfFindsContained(text, w);
      assert forall i :: 0 <= i < |init| ==> init[i] == words[i];
    }
  }

  /** Every range the scan reports spans an occurrence of one of the words. */
  lemma {:induction false} ScanRangesAreHits(text: string, words: seq<string>)
    requires WordsNonEmpty(words)
    ensures forall i :: 0 <= i < |ScanRanges(text, words)| ==> IsHit(ScanRanges(text, words)[i], text, words)
  {
    if words != [] {
      var init := words[..|words| - 1];
      var w := words[|words| - 1];
      var front := ScanRanges(text, init);
      var back := WordRanges(text, w, 0);
      var r := ScanRanges(text, words);
      ScanRangesAreHits(text, init);
      WordRangesOccur(text, w, 0);
      assert r == front + back;
      forall i | 0 <= i < |r| ensures IsHit(r[i], text, words) {
        if i < |front| {
          var j :| 0 <= j < |init| && OccursAt(text, init[j], r[i].first) && r[i].last == r[i].first + |init[j]| - 1;
          assert init[j] == words[j];
        } else {
          assert r[i] == back[i - |front|];
          assert words[|words| - 1] == w;
        }
      }
    }
  }

  lemma {:induction false} SortedCons(a: Range, t: seq<Range>)
    requires SortedByFirst(t)
    requires t == [] || a.first <= t[0].first
    ensures SortedByFirst([a] + t)
  {
    var r := [a] + t;
    forall i, j | 0 <= i < j < |r| ensures r[i].first <= r[j].first {
      if i == 0 {
        assert r[j] == t[j - 1];
      } else {
        assert r[i] == t[i - 1] && r[j] == t[j - 1];
      }
    }
  }

  /** Stable insertion into a list sorted by first (a new range goes before equal ones). */
  function InsertByFirst(x: Range, s: seq<Range>): (r: seq<Range>)
    requires SortedByFirst(s)
    ensures SortedByFirst(r)
    ensures |r| == |s| + 1 && (r[0] == x || (s != [] && r[0] == s[0]))
  {
    if s == [] || x.first <= s[0].first then
      SortedCons(x, s);
      [x] + s
    else
      assert s == [s[0]] + s[1..];
      var t := InsertByFirst(x, s[1..]);
      SortedCons(s[0], t);
      [s[0]] + t
  }

  /** sortedBy { it.first }: a stable sort by start. */
  function SortByFirst(rs: seq<Range>): (r: seq<Range>)
    ensures SortedByFirst(r)
  {
    if rs == [] then [] else InsertByFirst(rs[0], SortByFirst(rs[1..]))
  }

  /** Insertion adds exactly the new range. */
  lemma {:induction false} InsertPermutation(x: Range, s: seq<Range>)
    requires SortedByFirst(s)
    ensures multiset(InsertByFirst(x, s)) == multiset(s) + multiset{x}
  {
    if s != [] && x.first > s[0].first {
      assert s == [s[0]] + s[1..];
      InsertPermutation(x, s[1..]);
    }
  }

  /** Sorting is a permutation. */
  lemma {:induction false} SortPermutation(rs: seq<Range>)
    ensures multiset(SortByFirst(rs)) == multiset(rs)
  {
    if rs != [] {
      assert rs == [rs[0]] + rs[1..];
      SortPermutation(rs[1..]);
      InsertPermutation(rs[0], SortByFirst(rs[1..]));
    }
  }

  /**
   * The merge loop: `cur` is the range being grown, `rest` the sorted ranges
   * still to visit. A range that starts at most one past the end of `cur`
   * extends it; any other range closes `cur` and starts a new one.
   */
  function MergeFrom(cur: Range, rest: seq<Range>): (r: seq<Range>)
    decreases |rest|
  {
    if rest == [] then [cur]
    else if rest[0].first <= cur.last + 1 then
      MergeFrom(Range(cur.first, Max(cur.last, rest[0].last)), rest[1..])
    else [cur] + MergeFrom(rest[0], rest[1..])
  }

  function Merge(sorted: seq<Range>): seq<Range> {
    if sorted == [] then [] else MergeFrom(sorted[0], sorted[1..])
  }

  /** The highlight ranges of a lowercased line for the given words. */
  function HighlightRanges(lowerText: string, words: seq<string>): seq<Range>
    requires WordsNonEmpty(words)
  {
    if lowerText == [] then []
    else
      var rs := ScanRanges(lowerText, words);
      if rs == [] then [] else Merge(SortByFirst(rs))
  }

  /** Sorted input in, separated non-empty output out, starting where `cur` starts. */
  lemma {:induction false} MergeFromShape(cur: Range, rest: seq<Range>)
    requires cur.first <= cur.last
    requires forall i :: 0 <= i < |rest| ==> rest[i].first <= rest[i].last
    requires forall i :: 0 <= i < |rest| ==> cur.first <= rest[i].first
    requires SortedByFirst(rest)
    ensures var r := MergeFrom(cur, rest);
      && r != [] && r[0].first == cur.first
      && Separated(r)
      && (forall i :: 0 <= i < |r| ==> r[i].first <= r[i].last)
    decreases |rest|
  {
    if rest != [] {
      if rest[0].first <= cur.last + 1 {
        MergeFromShape(Range(cur.first, Max(cur.last, rest[0].last)), rest[1..]);
      } else {
        MergeFromShape(rest[0], rest[1..]);
        var tail := MergeFrom(rest[0], rest[1..]);
        assert MergeFrom(cur, rest) == [cur] + tail;
      }
    }
  }

  /** Merging never leaves the text: outputs span from some input's start to some input's end. */
  lemma {:induction false} MergeFromWithin(cur: Range, rest: seq<Range>, n: int)
    requires WithinText([cur] + rest, n)
    ensures WithinText(MergeFrom(cur, rest), n)
    decreases |rest|
  {
    assert cur == ([cur] + rest)[0];
    assert forall i :: 0 <= i < |rest| ==> rest[i] == ([cur] + rest)[i + 1];
    if rest != [] {
      var next := if rest[0].first <= cur.last + 1
        then Range(cur.first, Max(cur.last, rest[0].last)) else rest[0];
      var more := [next] + rest[1..];
      assert forall i :: 1 <= i < |more| ==> more[i] == rest[i];
      MergeFromWithin(next, rest[1..], n);
    }
  }

  /** Every range that goes into the merge ends up inside one that comes out. */
  lemma {:induction false} MergeFromCovers(cur: Range, rest: seq<Range>)
    requires forall i :: 0 <= i < |rest| ==> cur.first <= rest[i].first
    requires SortedByFirst(rest)
    ensures InsideSome(cur, MergeFrom(cur, rest))
    ensures forall i :: 0 <= i < |rest| ==> InsideSome(rest[i], MergeFrom(cur, rest))
    decreases |rest|
  {
    var r := MergeFrom(cur, rest);
    if rest == [] {
      assert Contained(cur, r[0]);
    } else if rest[0].first <= cur.last + 1 {
      var grown := Range(cur.first, Max(cur.last, rest[0].last));
      assert r == MergeFrom(grown, rest[1..]);
      MergeFromCovers(grown, rest[1..]);
      var k :| 0 <= k < |r| && Contained(grown, r[k]);
      assert Contained(cur, r[k]) && Contained(rest[0], r[k]);
      forall i | 1 <= i < |rest| ensures InsideSome(rest[i], r) {
        assert rest[i] == rest[1..][i - 1];
      }
    } else {
      MergeFromCovers(rest[0], rest[1..]);
      var tail := MergeFrom(rest[0], rest[1..]);
      assert r == [cur] + tail;
      assert Contained(cur, r[0]);
      forall i | 0 <= i < |rest| ensures InsideSome(rest[i], r) {
        if i > 0 {
          assert rest[i] == rest[1..][i - 1];
        }
        var k :| 0 <= k < |tail| && Contained(rest[i], tail[k]);
        assert r[k + 1] == tail[k];
      }
    }
  }

  /** Merging adds no position: a position covered by an output is covered by an input. */
  lemma {:induction false} MergeFromExact(cur: Range, rest: seq<Range>, p: int)
    requires CoveredBy(MergeFrom(cur, rest), p)
    ensures Covers(cur, p) || CoveredBy(rest, p)
    decreases |rest|
  {
    if rest != [] {
      if rest[0].first <= cur.last + 1 {
        var grown := Range(cur.first, Max(cur.last, rest[0].last));
        MergeFromExact(grown, rest[1..], p);
        if Covers(grown, p) && !Covers(cur, p) {
          assert Covers(rest[0], p);
        }
        if CoveredBy(rest[1..], p) {
          var i :| 0 <= i < |rest[1..]| && Covers(rest[1..][i], p);
          assert Covers(rest[i + 1], p);
        }
      } else {
        var tail := MergeFrom(rest[0], rest[1..]);
        assert MergeFrom(cur, rest) == [cur] + tail;
        var i :| 0 <= i < |[cur] + tail| && Covers(([cur] + tail)[i], p);
        if i > 0 {
          assert Covers(tail[i - 1], p);
          MergeFromExact(rest[0], rest[1..], p);
          if CoveredBy(rest[1..], p) {
            var j :| 0 <= j < |rest[1..]| && Covers(rest[1..][j], p);
            assert Covers(rest[j + 1], p);
          }
        }
      }
    }
  }

  /** Every range of a sorted list lies inside one of its merged ranges. */
  lemma {:induction false} MergeCovers(sorted: seq<Range>)
    requires sorted != [] && SortedByFirst(sorted)
    ensures forall i :: 0 <= i < |sorted| ==> InsideSome(sorted[i], Merge(sorted))
  {
    var cur, rest := sorted[0], sorted[1..];
    MergeFromCovers(cur, rest);
    forall i | 1 <= i < |sorted| ensures InsideSome(sorted[i], Merge(sorted)) {
      assert sorted[i] == rest[i - 1];
    }
  }

  /** A position covered by a merged range is covered by a range of the list. */
  lemma {:induction false} MergeExact(sorted: seq<Range>, p: int)
    requires sorted != [] && CoveredBy(Merge(sorted), p)
    ensures CoveredBy(sorted, p)
  {
    var cur, rest := sorted[0], sorted[1..];
    MergeFromExact(cur, rest, p);
    if !Covers(cur, p) {
      var j :| 0 <= j < |rest| && Covers(rest[j], p);
      assert Covers(sorted[j + 1], p);
    }
  }

  /** Merging a non-empty sorted list of ranges inside the text. */
  lemma {:induction false} MergeFacts(sorted: seq<Range>, n: int)
    requires sorted != [] && SortedByFirst(sorted) && WithinText(sorted, n)
    ensures var merged := Merge(sorted);
      && Separated(merged)
      && WithinText(merged, n)
      && (forall i :: 0 <= i < |sorted| ==> InsideSome(sorted[i], merged))
      && (forall p :: CoveredBy(merged, p) ==> CoveredBy(sorted, p))
  {
    var cur, rest := sorted[0], sorted[1..];
    assert sorted == [cur] + rest;
    MergeFromShape(cur, rest);
    MergeFromWithin(cur, rest, n);
    MergeCovers(sorted);
    forall p | CoveredBy(Merge(sorted), p) ensures CoveredBy(sorted, p) {
      MergeExact(sorted, p);
    }
  }

  /** No range fits in an empty text. */
  lemma {:induction false} WithinEmpty(rs: seq<Range>, n: int)
    requires WithinText(rs, n)
    ensures n <= 0 ==> rs == []
  {
    if rs != [] {
      assert 0 <= rs[0].first <= rs[0].last < n;
    }
  }

  /** Sorting gives back the same ranges. */
  lemma {:induction false} SortBySameElements(rs: seq<Range>)
    ensures forall x :: x in SortByFirst(rs) <==> x in rs
  {
    var sorted := SortByFirst(rs);
    SortPermutation(rs);
    forall x ensures x in sorted <==> x in rs {
      assert x in sorted <==> x in multiset(sorted);
      assert x in rs <==> x in multiset(rs);
    }
  }

  /** What the highlight ranges promise, for every line and every list of non-empty words. */
  lemma {:induction false} HighlightRangesFacts(lowerText: string, words: seq<string>)
    requires WordsNonEmpty(words)
    ensures var merged := HighlightRanges(lowerText, words);
      var scan := ScanRanges(lowerText, words);
      && Separated(merged)
      && WithinText(merged, |lowerText|)
      && (forall i :: 0 <= i < |scan| ==> InsideSome(scan[i], merged))
      && (forall p :: CoveredBy(merged, p) ==> CoveredBy(scan, p))
      && (merged == [] <==> lowerText == [] || forall i :: 0 <= i < |words| ==> !Contains(lowerText, words[i]))
  {
    var merged := HighlightRanges(lowerText, words);
    var scan := ScanRanges(lowerText, words);
    ScanRangesEmpty(lowerText, words);
    if lowerText != [] && scan != [] {
      var sorted := SortByFirst(scan);
      SortBySameElements(scan);
      assert sorted != [] by { assert scan[0] in sorted; }
      assert WithinText(sorted, |lowerText|) by {
        forall i | 0 <= i < |sorted| ensures 0 <= sorted[i].first <= sorted[i].last < |lowerText| {
          assert sorted[i] in scan;
        }
      }
      MergeFacts(sorted, |lowerText|);
      assert merged == Merge(sorted);
      forall i | 0 <= i < |scan| ensures InsideSome(scan[i], merged) {
        assert scan[i] in sorted;
        var j :| 0 <= j < |sorted| && sorted[j] == scan[i];
      }
      forall p | CoveredBy(merged, p)
        ensures CoveredBy(scan, p)
      {
        var j :| 0 <= j < |sorted| && Covers(sorted[j], p);
        assert sorted[j] in scan;
      }
    } else {
      WithinEmpty(scan, |lowerText|);
    }
  }

  /**
   * Every occurrence of `w` starting at or after `from` has its first
   * character inside a hit. The scan resumes after each hit, so an
   * occurrence overlapping an earlier hit is covered only where it overlaps.
   */
  lemma {:induction false} WordRangesCoverOccurrences(text: string, w: string, from: nat, p: int)
    requires |w| > 0 && from <= p && OccursAt(text, w, p)
    ensures CoveredBy(WordRanges(text, w, from), p)
    decreases |text| - from
  {
    var k := IndexOf(text, w, from);
    IndexOfIsFirst(text, w, from);
    assert 0 <= k <= p;
    var hit := [Range(k, k + |w| - 1)];
    var tail := WordRanges(text, w, k + |w|);
    assert WordRanges(text, w, from) == hit + tail;
    if p <= k + |w| - 1 {
      assert Covers(hit[0], p);
    } else {
      WordRangesCoverOccurrences(text, w, k + |w|, p);
    }
    CoveredByAppend(hit, tail, p);
  }

  /** A position covered by either part is covered by the concatenation. */
  lemma CoveredByAppend(a: seq<Range>, b: seq<Range>, p: int)
    ensures CoveredBy(a, p) || CoveredBy(b, p) ==> CoveredBy(a + b, p)
  {
    if CoveredBy(a, p) {
      var i :| 0 <= i < |a| && Covers(a[i], p);
      assert (a + b)[i] == a[i];
    } else if CoveredBy(b, p) {
      var i :| 0 <= i < |b| && Covers(b[i], p);
      assert (a + b)[|a| + i] == b[i];
    }
  }

  /** The first character of every occurrence of any word lies inside a scanned range. */
  lemma {:induction false} ScanCoversOccurrences(text: string, words: seq<string>, j: int, p: int)
    requires WordsNonEmpty(words) && 0 <= j < |words| && OccursAt(text, words[j], p)
    ensures CoveredBy(ScanRanges(text, words), p)
    decreases |words|
  {
    var init := words[..|words| - 1];
    var front := ScanRanges(text, init);
    var back := WordRanges(text, words[|words| - 1], 0);
    var scan := ScanRanges(text, words);
    assert scan == front + back;
    if j == |words| - 1 {
      WordRangesCoverOccurrences(text, words[j], 0, p);
    } else {
      assert init[j] == words[j];
      ScanCoversOccurrences(text, init, j, p);
    }
    CoveredByAppend(front, back, p);
  }

  /** One scanned range lies inside one highlight range. */
  lemma ScanHitInsideHighlight(lowerText: string, words: seq<string>, i: int)
    requires WordsNonEmpty(words) && 0 <= i < |ScanRanges(lowerText, words)|
    ensures InsideSome(ScanRanges(lowerText, words)[i], HighlightRanges(lowerText, words))
  {
    HighlightRangesFacts(lowerText, words);
  }

  /**
   * The highlight ranges cover the first character of every occurrence of
   * every word: no occurrence is left without a highlight.
   */
  lemma {:induction false} HighlightCoversOccurrences(lowerText: string, words: seq<string>)
    requires WordsNonEmpty(words)
    ensures forall j, p :: 0 <= j < |words| && OccursAt(lowerText, words[j], p) ==>
      CoveredBy(HighlightRanges(lowerText, words), p)
  {
    var merged := HighlightRanges(lowerText, words);
    var scan := ScanRanges(lowerText, words);
    forall j, p | 0 <= j < |words| && OccursAt(lowerText, words[j], p)
      ensures CoveredBy(merged, p)
    {
      ScanCoversOccurrences(lowerText, words, j, p);
      var i :| 0 <= i < |scan| && Covers(scan[i], p);
      ScanHitInsideHighlight(lowerText, words, i);
      var k :| 0 <= k < |merged| && Contained(scan[i], merged[k]);
      assert Covers(merged[k], p);
    }
  }

  /** The shape of the highlight ranges alone: inside the text, apart and in order. */
  lemma {:induction false} HighlightShape(lowerText: string, words: seq<string>)
    requires WordsNonEmpty(words)
    ensures Separated(HighlightRanges(lowerText, words))
    ensures WithinText(HighlightRanges(lowerText, words), |lowerText|)
  {
    HighlightRangesFacts(lowerText, words);
  }

  /** The hits still to be collected once indexOf has returned `idx`. */
  function HitsFrom(text: string, w: string, idx: int): seq<Range>
    requires |w| > 0
    requires idx == -1 || OccursAt(text, w, idx)
  {
    if idx < 0 then [] else [Range(idx, idx + |w| - 1)] + WordRanges(text, w, idx + |w|)
  }

  /** The scan from `from` is the hits left over once indexOf from `from` has answered. */
  lemma {:induction false} WordRangesHits(text: string, w: string, from: nat)
    requires |w| > 0
    ensures WordRanges(text, w, from) == HitsFrom(text, w, IndexOf(text, w, from))
  {
    var k := IndexOf(text, w, from);
    if k >= 0 {
      var tail := WordRanges(text, w, k + |w|);
      assert WordRanges(text, w, from) == [Range(k, k + |w| - 1)] + tail;
      assert HitsFrom(text, w, k) == [Range(k, k + |w| - 1)] + tail;
    }
  }

  /** One turn of the search loop: the hit at idx, then the hits after it. */
  lemma {:induction false} HitsStep(text: string, w: string, idx: int)
    requires |w| > 0 && idx >= 0 && OccursAt(text, w, idx)
    ensures HitsFrom(text, w, idx)
         == [Range(idx, idx + |w| - 1)] + HitsFrom(text, w, IndexOf(text, w, idx + |w|))
  {
    var tail := WordRanges(text, w, idx + |w|);
    assert tail == HitsFrom(text, w, IndexOf(text, w, idx + |w|)) by {
      WordRangesHits(text, w, idx + |w|);
    }
    assert HitsFrom(text, w, idx) == [Range(idx, idx + |w| - 1)] + tail;
  }

  /** The inner search loop of collectMatchesInText for one word. */
  method ScanWord(text: string, word: string, ranges: seq<Range>) returns (out: seq<Range>)
    requires |word| > 0
    ensures out == ranges + WordRanges(text, word, 0)
  {
    out := ranges;
    var idx := IndexOf(text, word, 0);
    WordRangesHits(text, word, 0);
    while idx >= 0
      invariant idx == -1 || OccursAt(text, word, idx)
      invariant out + HitsFrom(text, word, idx) == ranges + WordRanges(text, word, 0)
      decreases if idx < 0 then 0 else |text| + 1 - idx
    {
      var end := Max(idx + |word| - 1, idx);
      var next := IndexOf(text, word, idx + |word|);
      HitsStep(text, word, idx);
      SeqAssoc(out, [Range(idx, end)], HitsFrom(text, word, next));
      out := out + [Range(idx, end)];
      idx := next;
    }
  }

  /** The outer loop of collectMatchesInText: every word's hits, word by word. */
  method ScanWords(text: string, words: seq<string>) returns (ranges: seq<Range>)
    requires WordsNonEmpty(words)
    ensures ranges == ScanRanges(text, words)
  {
    ranges := [];
    for i := 0 to |words|
      invariant ranges == ScanRanges(text, words[..i])
    {
      ranges := ScanWord(text, words[i], ranges);
      assert words[..i + 1][..i] == words[..i];
    }
    assert words[..|words|] == words;
  }

  /** The merge loop of collectMatchesInText over ranges already sorted by start. */
  method MergeSorted(sorted: seq<Range>) returns (merged: seq<Range>)
    requires sorted != []
    ensures merged == Merge(sorted)
  {
    merged := [];
    var current := sorted[0];
    for i := 1 to |sorted|
      invariant merged + MergeFrom(current, sorted[i..]) == Merge(sorted)
    {
      var next := sorted[i];
      assert sorted[i..][0] == next && sorted[i..][1..] == sorted[i + 1..];
      if next.first <= current.last + 1 {
        current := Range(current.first, Max(current.last, next.last));
      } else {
        merged := merged + [current];
        current := next;
      }
    }
    merged := merged + [current];
  }

  /**
   * collectMatchesInText: the per-word scan fills `ranges`, which are then
   * sorted by start and merged in one pass. Words must be non-empty (the scan
   * would not advance on an empty word; every caller removes blank words).
   */
  method CollectMatchesInText(lowerText: string, words: seq<string>) returns (merged: seq<Range>)
    requires WordsNonEmpty(words)
    ensures merged == HighlightRanges(lowerText, words)
    ensures Separated(merged) && WithinText(merged, |lowerText|)
    ensures forall i :: 0 <= i < |ScanRanges(lowerText, words)| ==>
      InsideSome(ScanRanges(lowerText, words)[i], merged)
    ensures forall p :: CoveredBy(merged, p) ==> CoveredBy(ScanRanges(lowerText, words), p)
    ensures merged == [] <==> lowerText == [] || forall i :: 0 <= i < |words| ==> !Contains(lowerText, words[i])
    ensures forall j, p :: 0 <= j < |words| && OccursAt(lowerText, words[j], p) ==> CoveredBy(merged, p)
  {
    HighlightRangesFacts(lowerText, words);
    HighlightCoversOccurrences(lowerText, words);
    WithinEmpty(ScanRanges(lowerText, words), |lowerText|);
    if |lowerText| == 0 {
      return [];
    }
    var ranges := ScanWords(lowerText, words);
    if |ranges| == 0 {
      return [];
    }
    var sorted := SortByFirst(ranges);
    SortBySameElements(ranges);
    assert sorted != [] by { assert ranges[0] in sorted; }
    merged := MergeSorted(sorted);
  }

  /** Some word occurs at pos. */
  predicate SomeWordAt(text: string, words: seq<string>, pos: int) {
    exists j :: 0 <= j < |words| && OccursAt(text, words[j], pos)
  }

  /** No word occurs anywhere before pos. */
  predicate NoWordBefore(text: string, words: seq<string>, pos: int) {
    forall j, k :: 0 <= j < |words| && 0 <= k < pos ==> !OccursAt(text, words[j], k)
  }

  /** The first occurrence of every word is among the scanned ranges. */
  lemma {:induction false} ScanHasFirstOccurrences(text: string, words: seq<string>, j: int)
    requires WordsNonEmpty(words) && 0 <= j < |words|
    requires IndexOf(text, words[j], 0) >= 0
    ensures exists i :: 0 <= i < |ScanRanges(text, words)| && ScanRanges(text, words)[i].first == IndexOf(text, words[j], 0)
    decreases |words|
  {
    var init := words[..|words| - 1];
    var last := words[|words| - 1];
    var front := ScanRanges(text, init);
    var back := WordRanges(text, last, 0);
    var scan := ScanRanges(text, words);
    assert scan == front + back;
    if j == |words| - 1 {
      var k := IndexOf(text, last, 0);
      assert back == [Range(k, k + |last| - 1)] + WordRanges(text, last, k + |last|);
      assert scan[|front|] == back[0];
    } else {
      assert init[j] == words[j];
      ScanHasFirstOccurrences(text, init, j);
      var i :| 0 <= i < |front| && front[i].first == IndexOf(text, words[j], 0);
      assert scan[i] == front[i];
    }
  }

  /** pos is the smallest start among rs, and one of them starts there. */
  predicate LeastFirst(pos: int, rs: seq<Range>) {
    && (exists i :: 0 <= i < |rs| && rs[i].first == pos)
    && (forall i :: 0 <= i < |rs| ==> pos <= rs[i].first)
  }

  /** Some range of rs starts at or before k. */
  predicate SomeStartsBy(rs: seq<Range>, k: int) {
    exists i :: 0 <= i < |rs| && rs[i].first <= k
  }

  lemma {:induction false} SortedLeast(sorted: seq<Range>)
    requires sorted != [] && SortedByFirst(sorted)
    ensures LeastFirst(sorted[0].first, sorted)
  {
    assert sorted[0].first == sorted[0].first;
  }

  /** Merging keeps the start of the first sorted range. */
  lemma {:induction false} MergeStart(sorted: seq<Range>, n: int)
    requires sorted != [] && SortedByFirst(sorted) && WithinText(sorted, n)
    ensures Merge(sorted) != [] && Merge(sorted)[0].first == sorted[0].first
  {
    var tail := sorted[1..];
    assert forall i :: 0 <= i < |tail| ==> tail[i] == sorted[i + 1];
    MergeFromShape(sorted[0], tail);
  }

  /** Sorting a list of ranges inside the text keeps them inside it. */
  lemma {:induction false} SortWithin(rs: seq<Range>, n: int)
    requires WithinText(rs, n)
    ensures WithinText(SortByFirst(rs), n)
    ensures rs != [] ==> SortByFirst(rs) != []
  {
    var sorted := SortByFirst(rs);
    SortBySameElements(rs);
    forall i | 0 <= i < |sorted| ensures 0 <= sorted[i].first <= sorted[i].last < n {
      assert sorted[i] in rs;
    }
    if rs != [] {
      assert rs[0] in sorted;
    }
  }

  /** A sorted list's first range starts at the smallest start of the list it was sorted from. */
  lemma {:induction false} SortLeast(rs: seq<Range>)
    requires SortByFirst(rs) != []
    ensures LeastFirst(SortByFirst(rs)[0].first, rs)
  {
    var sorted := SortByFirst(rs);
    SortBySameElements(rs);
    SortedLeast(sorted);
    var pos := sorted[0].first;
    forall i | 0 <= i < |rs| ensures pos <= rs[i].first {
      assert rs[i] in sorted;
    }
    assert sorted[0] in rs;
    var i0 :| 0 <= i0 < |rs| && rs[i0] == sorted[0];
  }

  /** The first merged range starts at the smallest start of the scanned ranges. */
  lemma {:induction false} FirstHighlightIsLeast(lowerText: string, words: seq<string>)
    requires WordsNonEmpty(words) && HighlightRanges(lowerText, words) != []
    ensures LeastFirst(HighlightRanges(lowerText, words)[0].first, ScanRanges(lowerText, words))
  {
    var scan := ScanRanges(lowerText, words);
    assert scan != [];
    SortWithin(scan, |lowerText|);
    MergeStart(SortByFirst(scan), |lowerText|);
    SortLeast(scan);
  }

  /** Wherever a word occurs, some scanned range starts at or before that place. */
  lemma {:induction false} OccurrenceIsScanned(text: string, words: seq<string>, j: int, k: int)
    requires WordsNonEmpty(words) && 0 <= j < |words|
    requires OccursAt(text, words[j], k)
    ensures SomeStartsBy(ScanRanges(text, words), k)
  {
    IndexOfIsFirst(text, words[j], 0);
    ScanHasFirstOccurrences(text, words, j);
  }

  /**
   * The first merged range starts at the earliest position where any word
   * occurs: some word occurs there and none occurs before it.
   */
  lemma {:induction false} FirstHighlightIsEarliest(lowerText: string, words: seq<string>)
    requires WordsNonEmpty(words) && HighlightRanges(lowerText, words) != []
    ensures SomeWordAt(lowerText, words, HighlightRanges(lowerText, words)[0].first)
    ensures NoWordBefore(lowerText, words, HighlightRanges(lowerText, words)[0].first)
  {
    var scan := ScanRanges(lowerText, words);
    var pos := HighlightRanges(lowerText, words)[0].first;
    FirstHighlightIsLeast(lowerText, words);
    ScanRangesAreHits(lowerText, words);
    var i0 :| 0 <= i0 < |scan| && scan[i0].first == pos;
    assert IsHit(scan[i0], lowerText, words);
    forall j, k | 0 <= j < |words| && OccursAt(lowerText, words[j], k)
      ensures pos <= k
    {
      OccurrenceIsScanned(lowerText, words, j, k);
    }
  }
}
