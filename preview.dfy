/**
 * Where the editor caret goes when a popup row is previewed or chosen
 * (findPreviewTarget), and the document offsets of a line's highlighted
 * matches (collectLineMatchRanges).
 */
module Preview {
  import opened KotlinText
  import opened Tokenizer
  import opened Highlight

  /**
   * An editor document as its lines, without their separators. Every line but
   * the last is followed by a one-character line separator, so a line starts
   * one offset after the end of the line before it.
   */
  type Document = seq<string>

  /** Document.getLineStartOffset. */
  function LineStart(doc: Document, line: nat): nat
    requires line <= |doc|
  {
    if line == 0 then 0 else LineStart(doc, line - 1) + |doc[line - 1]| + 1
  }

  /** Document.getLineEndOffset: the offset just past the last character of the line. */
  function LineEnd(doc: Document, line: nat): nat
    requires line < |doc|
  {
    LineStart(doc, line) + |doc[line]|
  }

  /** The lines of a document occupy disjoint offset ranges, in line order. */
  lemma {:induction false} LinesInOrder(doc: Document, a: nat, b: nat)
    requires a < b < |doc|
    ensures LineEnd(doc, a) < LineStart(doc, b)
    decreases b
  {
    if a < b - 1 {
      LinesInOrder(doc, a, b - 1);
    }
  }

  /** A highlighted match as document offsets: [startOffset, endOffset). */
  datatype LineMatchRange = LineMatchRange(startOffset: int, endOffset: int)

  function Min(a: int, b: int): int { if a <= b then a else b }

  /** The line's ranges moved to document offsets, each end clamped to the line end. */
  function ToOffsets(ranges: seq<Range>, start: int, end: int): (r: seq<LineMatchRange>)
    ensures |r| == |ranges|
  {
    seq(|ranges|, i requires 0 <= i < |ranges| =>
      LineMatchRange(start + ranges[i].first, Min(start + ranges[i].last + 1, end)))
  }

  /**
   * collectLineMatchRanges: nothing for a line the document does not have;
   * otherwise the highlight ranges of the lowercased line, as document offsets.
   */
  function CollectLineMatchRanges(doc: Document, lineNumber: int, words: seq<string>): (r: seq<LineMatchRange>)
    requires WordsNonEmpty(words)
    ensures !(0 <= lineNumber < |doc|) ==> r == []
  {
    if !(0 <= lineNumber < |doc|) then []
    else
      var text := doc[lineNumber];
      ToOffsets(HighlightRanges(Lower(text), words), LineStart(doc, lineNumber), LineEnd(doc, lineNumber))
  }

  /** r is m shifted by s, with each end one past the range's last character. */
  predicate ShiftedBy(r: seq<LineMatchRange>, m: seq<Range>, s: int) {
    && |r| == |m|
    && forall i :: 0 <= i < |r| ==> r[i].startOffset == s + m[i].first && r[i].endOffset == s + m[i].last + 1
  }

  /** Every range is non-empty and lies within [lo, hi). */
  predicate InsideLine(r: seq<LineMatchRange>, lo: int, hi: int) {
    forall i :: 0 <= i < |r| ==> lo <= r[i].startOffset < r[i].endOffset <= hi
  }

  /** Consecutive ranges have a gap between them. */
  predicate ApartInOrder(r: seq<LineMatchRange>) {
    forall i :: 0 <= i < |r| - 1 ==> r[i].endOffset < r[i + 1].startOffset
  }

  /** Some word occurs in text. */
  predicate AnyWordIn(text: string, words: seq<string>) {
    exists j :: 0 <= j < |words| && Contains(text, words[j])
  }

  /** Ranges inside a line of n characters, moved to a line starting at s. */
  lemma {:induction false} OffsetsFacts(m: seq<Range>, s: int, n: int)
    requires WithinText(m, n) && Separated(m)
    ensures ShiftedBy(ToOffsets(m, s, s + n), m, s)
    ensures InsideLine(ToOffsets(m, s, s + n), s, s + n)
    ensures ApartInOrder(ToOffsets(m, s, s + n))
  {
    var r := ToOffsets(m, s, s + n);
    forall i | 0 <= i < |r|
      ensures r[i].startOffset == s + m[i].first && r[i].endOffset == s + m[i].last + 1
    {
      assert m[i].last < n;
    }
  }

  /** A line has highlight ranges exactly when some word occurs in it. */
  lemma {:induction false} NoMatchIffNoWord(lowerText: string, words: seq<string>)
    requires WordsNonEmpty(words)
    ensures HighlightRanges(lowerText, words) == [] <==> !AnyWordIn(lowerText, words)
  {
    HighlightRangesFacts(lowerText, words);
    if AnyWordIn(lowerText, words) {
      var j :| 0 <= j < |words| && Contains(lowerText, words[j]);
      assert |words[j]| > 0;
    }
  }

  /**
   * On a line of the document, the offsets are exactly the highlight ranges
   * shifted by the line start (the clamp to the line end never changes
   * anything), inside the line, apart and in order; there are none exactly
   * when no word occurs in the lowercased line.
   */
  lemma {:induction false} LineMatchRangesFacts(doc: Document, lineNumber: nat, words: seq<string>)
    requires WordsNonEmpty(words) && lineNumber < |doc|
    ensures ShiftedBy(CollectLineMatchRanges(doc, lineNumber, words),
                      HighlightRanges(Lower(doc[lineNumber]), words), LineStart(doc, lineNumber))
    ensures InsideLine(CollectLineMatchRanges(doc, lineNumber, words), LineStart(doc, lineNumber), LineEnd(doc, lineNumber))
    ensures ApartInOrder(CollectLineMatchRanges(doc, lineNumber, words))
    ensures CollectLineMatchRanges(doc, lineNumber, words) == [] <==> !AnyWordIn(Lower(doc[lineNumber]), words)
  {
    var text := doc[lineNumber];
    var m := HighlightRanges(Lower(text), words);
    var s := LineStart(doc, lineNumber);
    assert CollectLineMatchRanges(doc, lineNumber, words) == ToOffsets(m, s, s + |text|);
    assert Separated(m) && WithinText(m, |text|) by {
      HighlightShape(Lower(text), words);
    }
    OffsetsFacts(m, s, |text|);
    NoMatchIffNoWord(Lower(text), words);
  }

  /** Where the caret goes: a line, a column in it and the length of the selection. */
  datatype PreviewTarget = PreviewTarget(line: int, column: int, length: int)

  /** indexOfFirst { !it.isWhitespace() }: the first non-whitespace index, or -1. */
  function FirstNonWhitespace(s: string): (r: int)
    ensures -1 <= r < |s|
    ensures r >= 0 ==> !IsWhitespace(s[r]) && forall k :: 0 <= k < r ==> IsWhitespace(s[k])
    ensures r == -1 <==> IsBlank(s)
  {
    if s == [] then -1
    else if !IsWhitespace(s[0]) then 0
    else
      var t := FirstNonWhitespace(s[1..]);
      assert forall k :: 1 <= k < |s| ==> s[k] == s[1..][k - 1];
      if t < 0 then -1 else t + 1
  }

  /** takeWhile { !it.isWhitespace() }.length */
  function WordLength(s: string): (r: nat)
    ensures r <= |s|
    ensures forall k :: 0 <= k < r ==> !IsWhitespace(s[k])
    ensures r == |s| || IsWhitespace(s[r])
  {
    if s == [] || IsWhitespace(s[0]) then 0
    else
      var t := WordLength(s[1..]);
      assert forall k :: 1 <= k < |s| ==> s[k] == s[1..][k - 1];
      1 + t
  }

  function MaxInt(a: int, b: int): int { if a >= b then a else b }

  /**
   * The target on a line without a match: the first run of non-whitespace,
   * or failing that the whole line, at least one column long.
   */
  function TargetWithoutMatch(lineNumber: int, lineText: string): (t: PreviewTarget)
    ensures t.line == lineNumber && 0 <= t.column && 1 <= t.length
  {
    var firstNonWhitespace := FirstNonWhitespace(lineText);
    if firstNonWhitespace >= 0 then
      var length := MaxInt(WordLength(lineText[firstNonWhitespace..]), 1);
      PreviewTarget(lineNumber, firstNonWhitespace, length)
    else
      PreviewTarget(lineNumber, 0, MaxInt(|lineText|, 1))
  }

  /**
   * findPreviewTarget: for a line the document does not have, (line, 0, 0);
   * otherwise the first highlighted match of the cleaned words, or failing
   * that the first run of non-whitespace, or failing that the whole line; the
   * length is never less than one.
   */
  function FindPreviewTarget(doc: Document, lineNumber: int, words: seq<string>): (t: PreviewTarget)
    ensures t.line == lineNumber
    ensures !(0 <= lineNumber < |doc|) ==> t.column == 0 && t.length == 0
    ensures 0 <= lineNumber < |doc| ==> 0 <= t.column && 1 <= t.length
  {
    if !(0 <= lineNumber < |doc|) then PreviewTarget(lineNumber, 0, 0)
    else
      var normalizedWords := NormalizeWords(words);
      var matches := CollectLineMatchRanges(doc, lineNumber, normalizedWords);
      var start := LineStart(doc, lineNumber);
      if matches != [] then
        var first := matches[0];
        assert 0 <= first.startOffset - start by {
          LineMatchRangesFacts(doc, lineNumber, normalizedWords);
        }
        PreviewTarget(lineNumber, first.startOffset - start, MaxInt(first.endOffset - first.startOffset, 1))
      else
        TargetWithoutMatch(lineNumber, doc[lineNumber])
  }

  /**
   * When a cleaned word occurs in the line, the caret selects the first
   * highlighted range: its column is the earliest position where any cleaned
   * word occurs in the lowercased line, and the selection covers that range.
   */
  lemma {:induction false} PreviewAtFirstMatch(doc: Document, lineNumber: nat, words: seq<string>)
    requires lineNumber < |doc|
    requires AnyWordIn(Lower(doc[lineNumber]), NormalizeWords(words))
    ensures var t := FindPreviewTarget(doc, lineNumber, words);
      var m := HighlightRanges(Lower(doc[lineNumber]), NormalizeWords(words));
      && m != []
      && t.column == m[0].first
      && t.length == m[0].last + 1 - m[0].first
      && t.column + t.length <= |doc[lineNumber]|
  {
    var ws := NormalizeWords(words);
    var text := doc[lineNumber];
    var m := HighlightRanges(Lower(text), ws);
    LineMatchRangesFacts(doc, lineNumber, ws);
    assert m[0].last < |text| && m[0].first <= m[0].last by {
      HighlightShape(Lower(text), ws);
    }
  }

  /** The column of a target on its first match is where the earliest word occurrence starts. */
  lemma {:induction false} PreviewColumnIsEarliest(doc: Document, lineNumber: nat, words: seq<string>)
    requires lineNumber < |doc|
    requires AnyWordIn(Lower(doc[lineNumber]), NormalizeWords(words))
    ensures SomeWordAt(Lower(doc[lineNumber]), NormalizeWords(words), FindPreviewTarget(doc, lineNumber, words).column)
    ensures NoWordBefore(Lower(doc[lineNumber]), NormalizeWords(words), FindPreviewTarget(doc, lineNumber, words).column)
  {
    PreviewAtFirstMatch(doc, lineNumber, words);
    FirstHighlightIsEarliest(Lower(doc[lineNumber]), NormalizeWords(words));
  }

  /** Without a match on a line of the document, the target is the line's fallback. */
  lemma {:induction false} PreviewWithoutMatch(doc: Document, lineNumber: nat, words: seq<string>)
    requires lineNumber < |doc|
    requires !AnyWordIn(Lower(doc[lineNumber]), NormalizeWords(words))
    ensures FindPreviewTarget(doc, lineNumber, words) == TargetWithoutMatch(lineNumber, doc[lineNumber])
  {
    var ws := NormalizeWords(words);
    var text := doc[lineNumber];
    NoMatchIffNoWord(Lower(text), ws);
    assert CollectLineMatchRanges(doc, lineNumber, ws) == [];
  }

  /** On a line with non-whitespace, the fallback selects its first run of non-whitespace. */
  lemma {:induction false} FirstWordTarget(lineNumber: int, text: string)
    requires !IsBlank(text)
    ensures var t := TargetWithoutMatch(lineNumber, text);
      && t.column + t.length <= |text|
      && (forall k :: 0 <= k < t.column ==> IsWhitespace(text[k]))
      && (forall k :: t.column <= k < t.column + t.length ==> !IsWhitespace(text[k]))
      && (t.column + t.length == |text| || IsWhitespace(text[t.column + t.length]))
  {
    var c := FirstNonWhitespace(text);
    var tail := text[c..];
    var n := WordLength(tail);
    assert n >= 1 by { assert tail[0] == text[c]; }
    assert TargetWithoutMatch(lineNumber, text) == PreviewTarget(lineNumber, c, n);
    forall k | c <= k < c + n ensures !IsWhitespace(text[k]) {
      assert text[k] == tail[k - c];
    }
    if c + n < |text| {
      assert text[c + n] == tail[n];
    }
  }

  /**
   * With no word in the line and some non-whitespace in it, the caret selects
   * the first run of non-whitespace characters.
   */
  lemma {:induction false} PreviewAtFirstWord(doc: Document, lineNumber: nat, words: seq<string>)
    requires lineNumber < |doc|
    requires !AnyWordIn(Lower(doc[lineNumber]), NormalizeWords(words))
    requires !IsBlank(doc[lineNumber])
    ensures var t := FindPreviewTarget(doc, lineNumber, words);
      var text := doc[lineNumber];
      && t.column + t.length <= |text|
      && (forall k :: 0 <= k < t.column ==> IsWhitespace(text[k]))
      && (forall k :: t.column <= k < t.column + t.length ==> !IsWhitespace(text[k]))
      && (t.column + t.length == |text| || IsWhitespace(text[t.column + t.length]))
  {
    PreviewWithoutMatch(doc, lineNumber, words);
    FirstWordTarget(lineNumber, doc[lineNumber]);
  }

  /** A blank line never holds a cleaned word. */
  lemma {:induction false} BlankLineHasNoWord(text: string, words: seq<string>)
    requires IsBlank(text)
    ensures !AnyWordIn(Lower(text), NormalizeWords(words))
  {
    var ws := NormalizeWords(words);
    var lower := Lower(text);
    forall j | 0 <= j < |ws| ensures !Contains(lower, ws[j]) {
      forall k | 0 <= k ensures !OccursAt(lower, ws[j], k) {
        if k + |ws[j]| <= |lower| {
          assert IsBlank(lower[k..k + |ws[j]|]);
        }
      }
    }
  }

  /** On a blank line the caret selects the whole line, or one column of an empty one. */
  lemma {:induction false} PreviewOfBlankLine(doc: Document, lineNumber: nat, words: seq<string>)
    requires lineNumber < |doc| && IsBlank(doc[lineNumber])
    ensures FindPreviewTarget(doc, lineNumber, words)
         == PreviewTarget(lineNumber, 0, MaxInt(|doc[lineNumber]|, 1))
  {
    BlankLineHasNoWord(doc[lineNumber], words);
    PreviewWithoutMatch(doc, lineNumber, words);
  }
}
