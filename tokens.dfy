/**
 * Match classification for scoring: every occurrence of a word in a line
 * becomes a MatchInfo that records where it lies, the whole alphanumeric run
 * (the token) around it, and whether it qualifies, that is, starts at a word
 * boundary or with a capital letter.
 */
module Tokens {
  import opened KotlinText
  import opened Highlight

  /** Every character of text in [lo, hi) is a letter or digit. */
  predicate AllAlnum(text: string, lo: int, hi: int)
    requires 0 <= lo && hi <= |text|
  {
    forall k :: lo <= k < hi ==> IsLetterOrDigit(text[k])
  }

  /** The run of letters and digits ending at index reaches back to p. */
  function TokenStart(text: string, index: nat): (p: nat)
    requires index <= |text|
    ensures p <= index && AllAlnum(text, p, index)
    ensures p == 0 || !IsLetterOrDigit(text[p - 1])
  {
    if index > 0 && IsLetterOrDigit(text[index - 1]) then TokenStart(text, index - 1) else index
  }

  /** The run of letters and digits starting at index reaches up to q (exclusive). */
  function TokenEnd(text: string, index: nat): (q: nat)
    ensures q >= index
    ensures q > index ==> q <= |text| && AllAlnum(text, index, q)
    ensures q >= |text| || !IsLetterOrDigit(text[q])
    decreases |text| - index
  {
    if index < |text| && IsLetterOrDigit(text[index]) then TokenEnd(text, index + 1) else index
  }

  /** The stopping conditions of findTokenStart determine its answer. */
  lemma {:induction false} TokenStartUnique(text: string, index: nat, p: nat)
    requires index <= |text| && p <= index && AllAlnum(text, p, index)
    requires p == 0 || !IsLetterOrDigit(text[p - 1])
    ensures p == TokenStart(text, index)
    decreases index
  {
    if p < index {
      TokenStartUnique(text, index - 1, p);
    }
  }

  /** The stopping conditions of findTokenEnd determine its answer. */
  lemma {:induction false} TokenEndUnique(text: string, index: nat, q: nat)
    requires index <= q <= |text| && AllAlnum(text, index, q)
    requires q == |text| || !IsLetterOrDigit(text[q])
    ensures q == TokenEnd(text, index)
    decreases q - index
  {
    if index < q {
      TokenEndUnique(text, index + 1, q);
    }
  }

  /** findTokenStart: walks left while the previous character is a letter or digit. */
  method FindTokenStart(text: string, index: nat) returns (pos: nat)
    requires index <= |text|
    ensures pos == TokenStart(text, index)
    ensures pos <= index && AllAlnum(text, pos, index)
    ensures pos == 0 || !IsLetterOrDigit(text[pos - 1])
  {
    pos := index;
    while pos > 0 && IsLetterOrDigit(text[pos - 1])
      invariant pos <= index
      invariant TokenStart(text, pos) == TokenStart(text, index)
    {
      pos := pos - 1;
    }
  }

  /** findTokenEnd: walks right while the character is a letter or digit. */
  method FindTokenEnd(text: string, index: nat) returns (pos: nat)
    ensures pos == TokenEnd(text, index)
    ensures pos >= index && (pos > index ==> pos <= |text| && AllAlnum(text, index, pos))
    ensures pos >= |text| || !IsLetterOrDigit(text[pos])
  {
    pos := index;
    while pos < |text| && IsLetterOrDigit(text[pos])
      invariant pos >= index
      invariant TokenEnd(text, pos) == TokenEnd(text, index)
      decreases |text| - pos
    {
      pos := pos + 1;
    }
  }

  /** One occurrence of a word: its clamped span, its token and whether it qualifies. */
  datatype MatchInfo = MatchInfo(start: int, end: int, tokenRange: Range, qualifies: bool)

  function Clamp(x: int, lo: int, hi: int): int
    requires lo <= hi
  {
    if x < lo then lo else if x > hi then hi else x
  }

  /** A match at start qualifies when it begins the text, follows a non-alphanumeric character, or is a capital. */
  predicate QualifiesAt(text: string, start: nat)
    requires start <= |text|
  {
    start == 0 || !IsLetterOrDigit(text[start - 1]) || (start < |text| && IsUpperCase(text[start]))
  }

  /** createMatchInfo: clamps the span into the text and classifies it. */
  function CreateMatchInfo(text: string, start: int, length: nat): (m: MatchInfo)
    ensures 0 <= m.start <= m.end <= |text|
    ensures m.tokenRange.first <= m.start && m.tokenRange.first <= m.tokenRange.last
  {
    var safeStart := Clamp(start, 0, |text|);
    var safeEnd := if safeStart + length > |text| then |text| else safeStart + length;
    var boundary := safeStart == 0 || !IsLetterOrDigit(text[safeStart - 1]);
    var startsWithCapital := safeStart < |text| && IsUpperCase(text[safeStart]);
    var tokenStart := TokenStart(text, safeStart);
    var tokenEndExclusive := TokenEnd(text, safeEnd);
    var tokenRange := Range(tokenStart, Max(tokenEndExclusive - 1, tokenStart));
    MatchInfo(safeStart, safeEnd, tokenRange, boundary || startsWithCapital)
  }

  /**
   * For a start inside the text: the span is kept (its end cut at the text's
   * end), the match qualifies exactly at a boundary or a capital, and the
   * token is the maximal run of letters and digits around the match.
   */
  lemma {:induction false} CreateMatchInfoInText(text: string, start: int, length: nat)
    requires 0 <= start < |text|
    ensures var m := CreateMatchInfo(text, start, length);
      && m.start == start
      && m.end == (if start + length <= |text| then start + length else |text|)
      && (m.qualifies <==> QualifiesAt(text, start))
  {
  }

  /**
   * For a non-empty match inside the text, the token is the maximal run of
   * letters and digits around it: alphanumeric from the token's first index
   * to the match and from the match's end to the token's last index, and
   * bounded on both sides by the text's ends or by other characters.
   */
  lemma {:induction false} CreateMatchInfoToken(text: string, start: int, length: nat)
    requires 0 <= start < |text| && length > 0
    ensures var m := CreateMatchInfo(text, start, length);
      var first, after := m.tokenRange.first, m.tokenRange.last + 1;
      && first <= start && AllAlnum(text, first, start)
      && (first == 0 || !IsLetterOrDigit(text[first - 1]))
      && m.end <= after <= |text| && AllAlnum(text, m.end, after)
      && (after == |text| || !IsLetterOrDigit(text[after]))
  {
  }

  /**
   * The infos still to be collected once indexOf has returned idx: the scan
   * stops at the first miss or at an index past the end of the original text.
   */
  function InfosFrom(text: string, lowerText: string, word: string, idx: int): (r: seq<MatchInfo>)
    requires |word| > 0
    requires idx == -1 || OccursAt(lowerText, word, idx)
    decreases if idx < 0 then 0 else |lowerText| + 1 - idx
  {
    if idx < 0 || idx >= |text| then []
    else [CreateMatchInfo(text, idx, |word|)]
         + InfosFrom(text, lowerText, word, IndexOf(lowerText, word, idx + |word|))
  }

  /** The infos of every occurrence of word, or none for an empty word or text. */
  function MatchInfos(text: string, lowerText: string, word: string): seq<MatchInfo> {
    if |word| == 0 || |lowerText| == 0 then []
    else InfosFrom(text, lowerText, word, IndexOf(lowerText, word, 0))
  }

  /** Every info starts, inside the text, at an occurrence of word in lowerText. */
  predicate AtOccurrences(infos: seq<MatchInfo>, text: string, lowerText: string, word: string) {
    forall i :: 0 <= i < |infos| ==> infos[i].start < |text| && OccursAt(lowerText, word, infos[i].start)
  }

  /** Consecutive infos start at least gap apart. */
  predicate StartsApart(infos: seq<MatchInfo>, gap: int) {
    forall i :: 0 <= i < |infos| - 1 ==> infos[i].start + gap <= infos[i + 1].start
  }

  /** Every info starts at an occurrence of the word inside the text, in ascending order without overlap. */
  lemma {:induction false} InfosFromOccur(text: string, lowerText: string, word: string, idx: int)
    requires |word| > 0
    requires idx == -1 || OccursAt(lowerText, word, idx)
    ensures AtOccurrences(InfosFrom(text, lowerText, word, idx), text, lowerText, word)
    ensures StartsApart(InfosFrom(text, lowerText, word, idx), |word|)
    ensures InfosFrom(text, lowerText, word, idx) != [] ==> InfosFrom(text, lowerText, word, idx)[0].start == idx
    decreases if idx < 0 then 0 else |lowerText| + 1 - idx
  {
    var r := InfosFrom(text, lowerText, word, idx);
    if 0 <= idx < |text| {
      var next := IndexOf(lowerText, word, idx + |word|);
      InfosFromOccur(text, lowerText, word, next);
      var tail := InfosFrom(text, lowerText, word, next);
      var m := CreateMatchInfo(text, idx, |word|);
      CreateMatchInfoInText(text, idx, |word|);
      assert r == [m] + tail;
      forall i | 1 <= i < |r|
        ensures r[i].start < |text| && OccursAt(lowerText, word, r[i].start)
      {
        assert r[i] == tail[i - 1];
      }
      forall i | 0 <= i < |r| - 1 ensures r[i].start + |word| <= r[i + 1].start {
        assert r[i + 1] == tail[i];
        if i > 0 {
          assert r[i] == tail[i - 1];
        }
      }
    }
  }

  /** Every info of MatchInfos is a classified occurrence inside the text. */
  lemma {:induction false} MatchInfosFacts(text: string, lowerText: string, word: string)
    ensures |word| == 0 || |lowerText| == 0 ==> MatchInfos(text, lowerText, word) == []
    ensures AtOccurrences(MatchInfos(text, lowerText, word), text, lowerText, word)
    ensures StartsApart(MatchInfos(text, lowerText, word), |word|)
    ensures forall i :: 0 <= i < |MatchInfos(text, lowerText, word)| ==>
      MatchInfos(text, lowerText, word)[i] == CreateMatchInfo(text, MatchInfos(text, lowerText, word)[i].start, |word|)
  {
    if |word| > 0 && |lowerText| > 0 {
      var idx := IndexOf(lowerText, word, 0);
      InfosFromOccur(text, lowerText, word, idx);
      InfosFromCreated(text, lowerText, word, idx);
    }
  }

  /** Every info is createMatchInfo applied at its own start. */
  lemma {:induction false} InfosFromCreated(text: string, lowerText: string, word: string, idx: int)
    requires |word| > 0
    requires idx == -1 || OccursAt(lowerText, word, idx)
    ensures forall i :: 0 <= i < |InfosFrom(text, lowerText, word, idx)| ==>
      InfosFrom(text, lowerText, word, idx)[i] == CreateMatchInfo(text, InfosFrom(text, lowerText, word, idx)[i].start, |word|)
    decreases if idx < 0 then 0 else |lowerText| + 1 - idx
  {
    var r := InfosFrom(text, lowerText, word, idx);
    if 0 <= idx < |text| {
      var next := IndexOf(lowerText, word, idx + |word|);
      InfosFromCreated(text, lowerText, word, next);
      var tail := InfosFrom(text, lowerText, word, next);
      CreateMatchInfoInText(text, idx, |word|);
      assert r == [CreateMatchInfo(text, idx, |word|)] + tail;
      forall i | 1 <= i < |r| ensures r[i] == CreateMatchInfo(text, r[i].start, |word|) {
        assert r[i] == tail[i - 1];
      }
    }
  }

  /** The infos start exactly where the hits start, one for one. */
  predicate SameStarts(infos: seq<MatchInfo>, hits: seq<Range>) {
    |infos| == |hits| && forall i :: 0 <= i < |infos| ==> infos[i].start == hits[i].first
  }

  /**
   * When the lowercased text is as long as the text (ASCII lowercasing), the
   * infos of a word are exactly the hits the highlight scan finds for it, one
   * for one and in the same order.
   */
  lemma {:induction false} InfosMatchHighlightScan(text: string, lowerText: string, word: string, idx: int)
    requires |word| > 0 && |text| == |lowerText|
    requires idx == -1 || OccursAt(lowerText, word, idx)
    ensures SameStarts(InfosFrom(text, lowerText, word, idx), HitsFrom(lowerText, word, idx))
    decreases if idx < 0 then 0 else |lowerText| + 1 - idx
  {
    if idx >= 0 {
      var next := IndexOf(lowerText, word, idx + |word|);
      InfosMatchHighlightScan(text, lowerText, word, next);
      HitsStep(lowerText, word, idx);
      CreateMatchInfoInText(text, idx, |word|);
      SameStartsCons(CreateMatchInfo(text, idx, |word|), InfosFrom(text, lowerText, word, next),
                     Range(idx, idx + |word| - 1), HitsFrom(lowerText, word, next));
    }
  }

  lemma {:induction false} SameStartsCons(info: MatchInfo, infos: seq<MatchInfo>, hit: Range, hits: seq<Range>)
    requires info.start == hit.first && SameStarts(infos, hits)
    ensures SameStarts([info] + infos, [hit] + hits)
  {
    forall i | 1 <= i < |infos| + 1 ensures ([info] + infos)[i].start == ([hit] + hits)[i].first {
      assert ([info] + infos)[i] == infos[i - 1] && ([hit] + hits)[i] == hits[i - 1];
    }
  }

  /** A line holding one camel-case identifier. */
  const CamelCaseLine: string := "fun CategoryHelper() {}"

  /** CategoryHelper sits at positions 4 to 17, between a space and a parenthesis. */
  lemma {:induction false} CamelCaseLineShape()
    ensures |CamelCaseLine| == 23
    ensures AllAlnum(CamelCaseLine, 4, 18)
    ensures !IsLetterOrDigit(CamelCaseLine[3]) && !IsLetterOrDigit(CamelCaseLine[18])
    ensures IsUpperCase(CamelCaseLine[12])
  {
    assert CamelCaseLine[4..18] == "CategoryHelper";
    forall k | 4 <= k < 18 ensures IsLetterOrDigit(CamelCaseLine[k]) {
      assert CamelCaseLine[k] == CamelCaseLine[4..18][k - 4];
    }
  }

  /**
   * A camel-case identifier is one token: in "fun CategoryHelper() {}" the
   * matches of "cat" (at 4) and "help" (at 12) both qualify, and both lie in
   * the token CategoryHelper (positions 4 to 17).
   */
  lemma {:induction false} CamelCaseIsOneToken()
    ensures var cat := CreateMatchInfo(CamelCaseLine, 4, 3);
      var help := CreateMatchInfo(CamelCaseLine, 12, 4);
      && cat.qualifies && help.qualifies
      && cat.tokenRange == Range(4, 17) && help.tokenRange == Range(4, 17)
  {
    var text := CamelCaseLine;
    CamelCaseLineShape();
    TokenStartUnique(text, 4, 4);
    TokenStartUnique(text, 12, 4);
    TokenEndUnique(text, 7, 18);
    TokenEndUnique(text, 16, 18);
  }

  /** collectMatchInfos walks the same occurrences as the highlight scan of that word. */
  lemma {:induction false} MatchInfosAreWordRanges(text: string, word: string)
    requires |word| > 0
    ensures SameStarts(MatchInfos(text, Lower(text), word), WordRanges(Lower(text), word, 0))
  {
    var lower := Lower(text);
    WordRangesHits(lower, word, 0);
    InfosMatchHighlightScan(text, lower, word, IndexOf(lower, word, 0));
    if |lower| == 0 {
      assert IndexOf(lower, word, 0) == -1;
    }
  }

  /** collectMatchInfos: an indexOf loop appending one MatchInfo per occurrence. */
  method CollectMatchInfos(text: string, lowerText: string, word: string) returns (matches: seq<MatchInfo>)
    ensures matches == MatchInfos(text, lowerText, word)
    ensures forall i :: 0 <= i < |matches| ==>
      matches[i].start < |text| && OccursAt(lowerText, word, matches[i].start)
      && (matches[i].qualifies <==> QualifiesAt(text, matches[i].start))
  {
    MatchInfosFacts(text, lowerText, word);
    forall i | 0 <= i < |MatchInfos(text, lowerText, word)|
      ensures var m := MatchInfos(text, lowerText, word)[i];
        m.qualifies <==> QualifiesAt(text, m.start)
    {
      var m := MatchInfos(text, lowerText, word)[i];
      CreateMatchInfoInText(text, m.start, |word|);
    }
    if |word| == 0 || |lowerText| == 0 {
      return [];
    }
    matches := [];
    var index := IndexOf(lowerText, word, 0);
    while index >= 0 && index < |text|
      invariant index == -1 || OccursAt(lowerText, word, index)
      invariant matches + InfosFrom(text, lowerText, word, index) == MatchInfos(text, lowerText, word)
      decreases if index < 0 then 0 else |lowerText| + 1 - index
    {
      var info := CreateMatchInfo(text, index, |word|);
      ghost var rest := InfosFrom(text, lowerText, word, IndexOf(lowerText, word, index + |word|));
      assert InfosFrom(text, lowerText, word, index) == [info] + rest;
      SeqAssoc(matches, [info], rest);
      matches := matches + [info];
      index := IndexOf(lowerText, word, index + |word|);
    }
  }
}
