/**
 * The popup row renderer (LineEntryRenderer.customizeCellRenderer): a row's
 * text is appended as a sequence of fragments, bold where a highlight range
 * covers it and regular elsewhere.
 */
module Render {
  import opened KotlinText
  import opened Tokenizer
  import opened Highlight

  /** One appended fragment of a row: its text and whether it is bold. */
  datatype Segment = Segment(text: string, bold: bool)

  /** The row text the fragments spell out. */
  function Texts(segs: seq<Segment>): string {
    if segs == [] then [] else segs[0].text + Texts(segs[1..])
  }

  /** One flag per character of the spelled-out text: is it bold? */
  function BoldMask(segs: seq<Segment>): (m: seq<bool>)
    ensures |m| == |Texts(segs)|
  {
    if segs == [] then []
    else seq(|segs[0].text|, _ => segs[0].bold) + BoldMask(segs[1..])
  }

  /** The bold fragments, in order. */
  function BoldTexts(segs: seq<Segment>): seq<string> {
    if segs == [] then []
    else (if segs[0].bold then [segs[0].text] else []) + BoldTexts(segs[1..])
  }

  /** The text each range selects. */
  function RangeTexts(text: string, ranges: seq<Range>): seq<string>
    requires WithinText(ranges, |text|)
  {
    seq(|ranges|, i requires 0 <= i < |ranges| => text[ranges[i].first..ranges[i].last + 1])
  }

  /** The mask from position cur on says bold exactly where some range covers. */
  predicate MaskFrom(mask: seq<bool>, ranges: seq<Range>, cur: int, n: int) {
    |mask| == n - cur && forall p :: 0 <= p < |mask| ==> (mask[p] <==> CoveredBy(ranges, cur + p))
  }

  lemma {:induction false} WithinTail(ranges: seq<Range>, n: int)
    requires ranges != [] && WithinText(ranges, n)
    ensures WithinText(ranges[1..], n)
  {
    forall i | 0 <= i < |ranges| - 1 ensures 0 <= ranges[1..][i].first <= ranges[1..][i].last < n {
      assert ranges[1..][i] == ranges[i + 1];
    }
  }

  /**
   * The fragments the segment loop appends from position cur on: the regular
   * gap before each range (when there is one), the range in bold, and after
   * the last range the regular rest of the text (when there is one).
   */
  function SegmentsFrom(text: string, ranges: seq<Range>, cur: nat): seq<Segment>
    requires WithinText(ranges, |text|) && cur <= |text|
    decreases |ranges|
  {
    if ranges == [] then (if cur < |text| then [Segment(text[cur..], false)] else [])
    else
      var r := ranges[0];
      WithinTail(ranges, |text|);
      (if r.first > cur then [Segment(text[cur..r.first], false)] else [])
      + [Segment(text[r.first..r.last + 1], true)]
      + SegmentsFrom(text, ranges[1..], r.last + 1)
  }

  lemma {:induction false} TextsConcat(a: seq<Segment>, b: seq<Segment>)
    ensures Texts(a + b) == Texts(a) + Texts(b)
    decreases |a|
  {
    if a == [] {
      assert a + b == b;
    } else {
      assert (a + b)[1..] == a[1..] + b;
      TextsConcat(a[1..], b);
    }
  }

  lemma {:induction false} BoldMaskConcat(a: seq<Segment>, b: seq<Segment>)
    ensures BoldMask(a + b) == BoldMask(a) + BoldMask(b)
    decreases |a|
  {
    if a == [] {
      assert a + b == b;
    } else {
      assert (a + b)[1..] == a[1..] + b;
      BoldMaskConcat(a[1..], b);
    }
  }

  lemma {:induction false} BoldTextsConcat(a: seq<Segment>, b: seq<Segment>)
    ensures BoldTexts(a + b) == BoldTexts(a) + BoldTexts(b)
    decreases |a|
  {
    if a == [] {
      assert a + b == b;
    } else {
      assert (a + b)[1..] == a[1..] + b;
      BoldTextsConcat(a[1..], b);
    }
  }

  lemma {:induction false} SegmentOne(s: Segment)
    ensures Texts([s]) == s.text
    ensures BoldMask([s]) == seq(|s.text|, _ => s.bold)
    ensures BoldTexts([s]) == if s.bold then [s.text] else []
  {
    assert [s][1..] == [];
  }

  lemma {:induction false} TextsThree(gap: seq<Segment>, bold: Segment, rest: seq<Segment>)
    ensures Texts(gap + [bold] + rest) == Texts(gap) + bold.text + Texts(rest)
    ensures BoldTexts(gap + [bold] + rest) == BoldTexts(gap) + BoldTexts([bold]) + BoldTexts(rest)
  {
    TextsConcat(gap + [bold], rest);
    TextsConcat(gap, [bold]);
    BoldTextsConcat(gap + [bold], rest);
    BoldTextsConcat(gap, [bold]);
    SegmentOne(bold);
  }

  /** The gap fragment spells the text between cur and the range and holds nothing bold. */
  lemma {:induction false} GapFacts(text: string, cur: nat, first: nat)
    requires cur <= |text| && first <= |text|
    ensures var gap := if first > cur then [Segment(text[cur..first], false)] else [];
      && (first >= cur ==> Texts(gap) == text[cur..first])
      && BoldTexts(gap) == []
      && |BoldMask(gap)| == (if first > cur then first - cur else 0)
      && forall p :: 0 <= p < |BoldMask(gap)| ==> !BoldMask(gap)[p]
  {
    if first > cur {
      SegmentOne(Segment(text[cur..first], false));
    }
  }

  /** Ascending ranges, all starting at or after cur. */
  predicate OrderedFrom(ranges: seq<Range>, cur: int) {
    Ascending(ranges) && forall i :: 0 <= i < |ranges| ==> cur <= ranges[i].first
  }

  /** After the first range, the others are ordered from just past its end. */
  lemma {:induction false} OrderedTail(ranges: seq<Range>, cur: int)
    requires ranges != [] && OrderedFrom(ranges, cur)
    ensures OrderedFrom(ranges[1..], ranges[0].last + 1)
  {
    var tail := ranges[1..];
    forall i, j | 0 <= i < j < |tail| ensures tail[i].last < tail[j].first {
      assert tail[i] == ranges[i + 1] && tail[j] == ranges[j + 1];
    }
    forall i | 0 <= i < |tail| ensures ranges[0].last + 1 <= tail[i].first {
      assert tail[i] == ranges[i + 1];
    }
  }

  /** One turn of the segment loop: the gap fragment (if any), the bold fragment, then the rest. */
  lemma {:induction false} SegmentsStep(text: string, ranges: seq<Range>, cur: nat)
    returns (gap: seq<Segment>, bold: Segment, rest: seq<Segment>)
    requires WithinText(ranges, |text|) && cur <= |text| && ranges != []
    ensures WithinText(ranges[1..], |text|)
    ensures SegmentsFrom(text, ranges, cur) == gap + [bold] + rest
    ensures gap == if ranges[0].first > cur then [Segment(text[cur..ranges[0].first], false)] else []
    ensures bold == Segment(text[ranges[0].first..ranges[0].last + 1], true)
    ensures rest == SegmentsFrom(text, ranges[1..], ranges[0].last + 1)
  {
    WithinTail(ranges, |text|);
    var r := ranges[0];
    gap := if r.first > cur then [Segment(text[cur..r.first], false)] else [];
    bold := Segment(text[r.first..r.last + 1], true);
    rest := SegmentsFrom(text, ranges[1..], r.last + 1);
  }

  lemma {:induction false} SliceSplit(text: string, a: nat, b: nat, c: nat)
    requires a <= b <= c <= |text|
    ensures text[a..] == text[a..b] + text[b..c] + text[c..]
  {
  }

  /** Joining the gap, the bold fragment and the rest spells the text from cur on. */
  lemma {:induction false} SpellJoin(text: string, cur: nat, r: Range, gap: seq<Segment>, bold: Segment, rest: seq<Segment>)
    requires cur <= r.first <= r.last < |text|
    requires gap == if r.first > cur then [Segment(text[cur..r.first], false)] else []
    requires bold == Segment(text[r.first..r.last + 1], true)
    requires Texts(rest) == text[r.last + 1..]
    ensures Texts(gap + [bold] + rest) == text[cur..]
  {
    TextsThree(gap, bold, rest);
    GapFacts(text, cur, r.first);
    SliceSplit(text, cur, r.first, r.last + 1);
  }

  /** Joining the gap, the bold fragment and the rest puts the range's text before the rest's bold texts. */
  lemma {:induction false} BoldJoin(text: string, cur: nat, r: Range, gap: seq<Segment>, bold: Segment, rest: seq<Segment>)
    requires cur <= |text| && 0 <= r.first <= r.last < |text|
    requires gap == if r.first > cur then [Segment(text[cur..r.first], false)] else []
    requires bold == Segment(text[r.first..r.last + 1], true)
    ensures BoldTexts(gap + [bold] + rest) == [text[r.first..r.last + 1]] + BoldTexts(rest)
  {
    BoldTextsConcat(gap + [bold], rest);
    BoldTextsConcat(gap, [bold]);
    if gap != [] {
      SegmentOne(gap[0]);
      assert gap == [gap[0]];
    }
    SegmentOne(bold);
  }

  /** The mask of the gap, the bold fragment and the rest, part by part. */
  lemma {:induction false} MaskJoin(text: string, cur: nat, r: Range, gap: seq<Segment>, bold: Segment, rest: seq<Segment>)
    requires cur <= r.first <= r.last < |text|
    requires gap == if r.first > cur then [Segment(text[cur..r.first], false)] else []
    requires bold == Segment(text[r.first..r.last + 1], true)
    ensures BoldMask(gap + [bold] + rest) == BoldMask(gap) + BoldMask([bold]) + BoldMask(rest)
    ensures |BoldMask(gap)| == r.first - cur && forall p :: 0 <= p < |BoldMask(gap)| ==> !BoldMask(gap)[p]
    ensures |BoldMask([bold])| == r.last + 1 - r.first && forall p :: 0 <= p < |BoldMask([bold])| ==> BoldMask([bold])[p]
  {
    BoldMaskConcat(gap + [bold], rest);
    BoldMaskConcat(gap, [bold]);
    SegmentOne(bold);
    GapFacts(text, cur, r.first);
  }

  /** The fragments spell out the text from cur on. */
  lemma {:induction false} SegmentsSpellText(text: string, ranges: seq<Range>, cur: nat)
    requires WithinText(ranges, |text|) && cur <= |text|
    requires OrderedFrom(ranges, cur)
    ensures Texts(SegmentsFrom(text, ranges, cur)) == text[cur..]
    decreases |ranges|
  {
    if ranges == [] {
      if cur < |text| {
        SegmentOne(Segment(text[cur..], false));
      }
    } else {
      var r := ranges[0];
      var gap, bold, rest := SegmentsStep(text, ranges, cur);
      OrderedTail(ranges, cur);
      SegmentsSpellText(text, ranges[1..], r.last + 1);
      SpellJoin(text, cur, r, gap, bold, rest);
    }
  }

  /** The bold fragments are the ranges' texts, in order. */
  lemma {:induction false} SegmentsBoldTexts(text: string, ranges: seq<Range>, cur: nat)
    requires WithinText(ranges, |text|) && cur <= |text|
    ensures BoldTexts(SegmentsFrom(text, ranges, cur)) == RangeTexts(text, ranges)
    decreases |ranges|
  {
    if ranges == [] {
      if cur < |text| {
        SegmentOne(Segment(text[cur..], false));
      }
    } else {
      var r := ranges[0];
      var gap, bold, rest := SegmentsStep(text, ranges, cur);
      SegmentsBoldTexts(text, ranges[1..], r.last + 1);
      BoldJoin(text, cur, r, gap, bold, rest);
      RangeTextsCons(text, ranges);
    }
  }

  lemma {:induction false} RangeTextsCons(text: string, ranges: seq<Range>)
    requires WithinText(ranges, |text|) && ranges != []
    ensures WithinText(ranges[1..], |text|)
    ensures RangeTexts(text, ranges) == [text[ranges[0].first..ranges[0].last + 1]] + RangeTexts(text, ranges[1..])
  {
    WithinTail(ranges, |text|);
  }

  /** How coverage splits between the first range and the rest of an ordered list. */
  lemma {:induction false} CoveredSplit(ranges: seq<Range>, cur: int, pos: int, n: int)
    requires ranges != [] && OrderedFrom(ranges, cur) && WithinText(ranges, n) && cur <= pos
    ensures pos < ranges[0].first ==> !CoveredBy(ranges, pos)
    ensures Covers(ranges[0], pos) ==> CoveredBy(ranges, pos)
    ensures pos > ranges[0].last ==> (CoveredBy(ranges, pos) <==> CoveredBy(ranges[1..], pos))
  {
    if CoveredBy(ranges, pos) {
      var k :| 0 <= k < |ranges| && Covers(ranges[k], pos);
      if k > 0 {
        assert ranges[0].last < ranges[k].first;
        assert Covers(ranges[1..][k - 1], pos);
      }
    }
    if CoveredBy(ranges[1..], pos) {
      var k :| 0 <= k < |ranges[1..]| && Covers(ranges[1..][k], pos);
      assert Covers(ranges[k + 1], pos);
    }
    if Covers(ranges[0], pos) {
      assert 0 < |ranges|;
    }
  }

  /** Indexing into three joined masks. */
  lemma {:induction false} MaskIndex(x: seq<bool>, y: seq<bool>, z: seq<bool>, p: int)
    requires 0 <= p < |x| + |y| + |z|
    ensures (x + y + z)[p] == if p < |x| then x[p] else if p < |x| + |y| then y[p - |x|] else z[p - |x| - |y|]
  {
  }

  /** A regular gap, then a bold range, then a mask that is right for the later ranges. */
  lemma {:induction false} MaskCombine(x: seq<bool>, y: seq<bool>, z: seq<bool>, ranges: seq<Range>, cur: int, n: int)
    requires ranges != [] && OrderedFrom(ranges, cur) && WithinText(ranges, n)
    requires |x| == ranges[0].first - cur && forall p :: 0 <= p < |x| ==> !x[p]
    requires |y| == ranges[0].last + 1 - ranges[0].first && forall p :: 0 <= p < |y| ==> y[p]
    requires MaskFrom(z, ranges[1..], ranges[0].last + 1, n)
    ensures MaskFrom(x + y + z, ranges, cur, n)
  {
    var mask := x + y + z;
    forall p | 0 <= p < |mask| ensures mask[p] <==> CoveredBy(ranges, cur + p) {
      MaskIndex(x, y, z, p);
      CoveredSplit(ranges, cur, cur + p, n);
      if p >= |x| + |y| {
        assert cur + p == ranges[0].last + 1 + (p - |x| - |y|);
      }
    }
  }

  /** A position is bold exactly when a range covers it. */
  lemma {:induction false} SegmentsBoldWhereCovered(text: string, ranges: seq<Range>, cur: nat)
    requires WithinText(ranges, |text|) && cur <= |text|
    requires OrderedFrom(ranges, cur)
    ensures MaskFrom(BoldMask(SegmentsFrom(text, ranges, cur)), ranges, cur, |text|)
    decreases |ranges|
  {
    if ranges == [] {
      TrailingMask(text, cur);
    } else {
      WithinTail(ranges, |text|);
      OrderedTail(ranges, cur);
      SegmentsBoldWhereCovered(text, ranges[1..], ranges[0].last + 1);
      BoldMaskStep(text, ranges, cur);
    }
  }

  /** After the last range nothing is bold. */
  lemma {:induction false} TrailingMask(text: string, cur: nat)
    requires cur <= |text|
    ensures MaskFrom(BoldMask(SegmentsFrom(text, [], cur)), [], cur, |text|)
  {
    if cur < |text| {
      SegmentOne(Segment(text[cur..], false));
    }
  }

  /** The mask is right from cur on once it is right after the first range. */
  lemma {:induction false} BoldMaskStep(text: string, ranges: seq<Range>, cur: nat)
    requires WithinText(ranges, |text|) && cur <= |text|
    requires ranges != [] && OrderedFrom(ranges, cur) && WithinText(ranges[1..], |text|)
    requires MaskFrom(BoldMask(SegmentsFrom(text, ranges[1..], ranges[0].last + 1)), ranges[1..], ranges[0].last + 1, |text|)
    ensures MaskFrom(BoldMask(SegmentsFrom(text, ranges, cur)), ranges, cur, |text|)
  {
    var gap, bold, rest := SegmentsStep(text, ranges, cur);
    MaskJoin(text, cur, ranges[0], gap, bold, rest);
    MaskCombine(BoldMask(gap), BoldMask([bold]), BoldMask(rest), ranges, cur, |text|);
  }

  /**
   * The loop state after the first i ranges: the fragments appended so far,
   * followed by those still to come from position cur, are all the fragments.
   */
  predicate Appended(text: string, ranges: seq<Range>, i: nat, cur: nat, segs: seq<Segment>)
    requires WithinText(ranges, |text|)
  {
    i <= |ranges| && cur <= |text| && WithinText(ranges[i..], |text|)
    && segs + SegmentsFrom(text, ranges[i..], cur) == SegmentsFrom(text, ranges, 0)
  }

  /** One turn of the segment loop keeps the loop state. */
  lemma {:induction false} LoopStep(text: string, ranges: seq<Range>, i: nat, cur: nat, before: seq<Segment>, after: seq<Segment>)
    requires WithinText(ranges, |text|) && i < |ranges| && Appended(text, ranges, i, cur, before)
    requires var r := ranges[i];
      after == before + (if r.first > cur then [Segment(text[cur..r.first], false)] else [])
                      + [Segment(text[r.first..r.last + 1], true)]
    ensures ranges[i].last < |text|
    ensures Appended(text, ranges, i + 1, ranges[i].last + 1, after)
  {
    var gap, bold, rest := SegmentsStep(text, ranges[i..], cur);
    assert ranges[i..][1..] == ranges[i + 1..];
    SeqAssoc4(before, gap, [bold], rest);
  }

  lemma {:induction false} SeqAssoc4<T>(a: seq<T>, b: seq<T>, c: seq<T>, d: seq<T>)
    ensures a + (b + c + d) == a + b + c + d
  {
  }

  /** The segment loop of customizeCellRenderer. */
  method AppendSegments(text: string, ranges: seq<Range>) returns (segs: seq<Segment>)
    requires WithinText(ranges, |text|)
    ensures segs == SegmentsFrom(text, ranges, 0)
  {
    segs := [];
    var currentIndex: nat := 0;
    assert ranges[0..] == ranges;
    for i := 0 to |ranges|
      invariant Appended(text, ranges, i, currentIndex, segs)
    {
      var range := ranges[i];
      ghost var before := segs;
      if range.first > currentIndex {
        segs := segs + [Segment(text[currentIndex..range.first], false)];
      }
      segs := segs + [Segment(text[range.first..range.last + 1], true)];
      LoopStep(text, ranges, i, currentIndex, before, segs);
      currentIndex := range.last + 1;
    }
    assert ranges[|ranges|..] == [];
    if currentIndex < |text| {
      segs := segs + [Segment(text[currentIndex..], false)];
    }
  }

  /** The highlight ranges of a row for a list of search words, as the renderer computes them. */
  function RowHighlight(text: string, words: seq<string>): (r: seq<Range>)
    ensures WithinText(r, |text|) && Separated(r)
  {
    var searchWords := NormalizeWords(words);
    if searchWords == [] then []
    else
      HighlightRangesFacts(Lower(text), searchWords);
      HighlightRanges(Lower(text), searchWords)
  }

  /**
   * customizeCellRenderer: nothing for a missing row; otherwise the row text,
   * split into regular and bold fragments. The fragments always spell out the
   * row text, and a character is bold exactly when one of the row's highlight
   * ranges covers it.
   */
  method CustomizeCellRenderer(value: Option<string>, words: seq<string>) returns (segs: seq<Segment>)
    ensures value.None? ==> segs == []
    ensures value.Some? ==> Texts(segs) == value.value
    ensures value.Some? ==> MaskFrom(BoldMask(segs), RowHighlight(value.value, words), 0, |value.value|)
    ensures value.Some? ==> BoldTexts(segs) == RangeTexts(value.value, RowHighlight(value.value, words))
  {
    if value.None? {
      return [];
    }
    var text := value.value;
    var searchWords := NormalizeWords(words);
    if searchWords == [] {
      segs := [Segment(text, false)];
      SegmentOne(segs[0]);
      return;
    }
    var lower := Lower(text);
    var matches := CollectMatchesInText(lower, searchWords);
    if matches == [] {
      segs := [Segment(text, false)];
      SegmentOne(segs[0]);
      return;
    }
    SeparatedAscending(matches, |text|);
    SegmentsSpellText(text, matches, 0);
    SegmentsBoldTexts(text, matches, 0);
    SegmentsBoldWhereCovered(text, matches, 0);
    segs := AppendSegments(text, matches);
  }
}
