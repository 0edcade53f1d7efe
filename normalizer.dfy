/**
 * The text normaliser that turns a raw document line into the text a popup
 * row shows and searches: trim, a placeholder for blank lines, tabs expanded
 * to four spaces, and the line shortened to at most 120 characters.
 */
module Normalizer {
  import opened KotlinText

  /** The longest text a row shows before it is shortened. */
  const MaxLineLength: nat := 120

  /** What a tab becomes. */
  const TabReplacement: string := "    "

  /** The text shown for a blank line (a resource-bundle message in the plugin). */
  const EmptyLinePlaceholder: string := "<empty line>"

  /**
   * The library shortening routine is not part of this model: it is passed in,
   * and all that is assumed of it is that a string no longer than the limit
   * comes back unchanged.
   */
  ghost predicate KeepsShort(shorten: string -> string) {
    forall s: string :: |s| <= MaxLineLength ==> shorten(s) == s
  }

  function TabCount(s: string): nat {
    if s == [] then 0 else (if s[0] == '\t' then 1 else 0) + TabCount(s[1..])
  }

  /** Every tab replaced by four spaces. */
  function ExpandTabs(s: string): (r: string)
    ensures '\t' !in r
    ensures |r| == |s| + 3 * TabCount(s)
    ensures '\t' !in s ==> r == s
    ensures s != [] && s[0] != '\t' ==> r != [] && r[0] == s[0]
    ensures s != [] && s[|s| - 1] != '\t' ==> r != [] && r[|r| - 1] == s[|s| - 1]
  {
    if s == [] then []
    else (if s[0] == '\t' then TabReplacement else [s[0]]) + ExpandTabs(s[1..])
  }

  /** normalizeLineText: the display and search text of a document line. */
  function NormalizeLineText(text: string, shorten: string -> string): (r: string)
    ensures IsBlank(text) ==> r == EmptyLinePlaceholder
  {
    var trimmed := Trim(text);
    if IsBlank(trimmed) then EmptyLinePlaceholder
    else shorten(ExpandTabs(trimmed))
  }

  /**
   * The trimmed, tab-expanded text of a non-blank line is not empty, has no
   * tab, and starts and ends with a character that is not whitespace.
   */
  lemma {:induction false} ExpandTrimmed(text: string)
    requires !IsBlank(text)
    ensures var r := ExpandTabs(Trim(text));
      && r != [] && '\t' !in r
      && !IsWhitespace(r[0]) && !IsWhitespace(r[|r| - 1])
      && |r| == |Trim(text)| + 3 * TabCount(Trim(text))
  {
    var t := Trim(text);
    assert t != [] && !IsWhitespace(t[0]) && !IsWhitespace(t[|t| - 1]);
    assert t[0] != '\t' && t[|t| - 1] != '\t';
  }

  /**
   * A non-blank line whose expanded text fits is shown trimmed, with its tabs
   * expanded and nothing else changed.
   */
  lemma {:induction false} NormalizeShortLine(text: string, shorten: string -> string)
    requires KeepsShort(shorten)
    requires !IsBlank(text)
    requires |Trim(text)| + 3 * TabCount(Trim(text)) <= MaxLineLength
    ensures NormalizeLineText(text, shorten) == ExpandTabs(Trim(text))
  {
    var t := Trim(text);
    assert t != [] && !IsWhitespace(t[0]);
    assert !IsBlank(t);
    var x := ExpandTabs(t);
    assert |x| <= MaxLineLength;
    assert shorten(x) == x;
  }

  /** A line that fits, has no tabs and no whitespace at its ends normalises to itself. */
  lemma {:induction false} TrimmedLineIsNormal(r: string, shorten: string -> string)
    requires KeepsShort(shorten)
    requires r != [] && '\t' !in r && |r| <= MaxLineLength
    requires !IsWhitespace(r[0]) && !IsWhitespace(r[|r| - 1])
    ensures NormalizeLineText(r, shorten) == r
  {
    TrimOfTrimmed(r);
    assert !IsBlank(r) by { assert !IsWhitespace(r[0]); }
    assert ExpandTabs(r) == r;
    assert shorten(r) == r;
  }

  /** The placeholder is a normal line: normalising it gives it back. */
  lemma {:induction false} PlaceholderIsNormal(shorten: string -> string)
    requires KeepsShort(shorten)
    ensures NormalizeLineText(EmptyLinePlaceholder, shorten) == EmptyLinePlaceholder
  {
    var p := EmptyLinePlaceholder;
    assert p[0] == '<' && p[|p| - 1] == '>';
    assert '\t' !in p;
    TrimmedLineIsNormal(p, shorten);
  }

  /**
   * Normalising a normalised line changes nothing, provided the line fits
   * (a shortened line is left to the library routine).
   */
  lemma {:induction false} NormalizeIdempotent(text: string, shorten: string -> string)
    requires KeepsShort(shorten)
    requires IsBlank(text) || |Trim(text)| + 3 * TabCount(Trim(text)) <= MaxLineLength
    ensures NormalizeLineText(NormalizeLineText(text, shorten), shorten)
         == NormalizeLineText(text, shorten)
  {
    if IsBlank(text) {
      PlaceholderIsNormal(shorten);
    } else {
      NormalizeShortLine(text, shorten);
      ExpandTrimmed(text);
      TrimmedLineIsNormal(ExpandTabs(Trim(text)), shorten);
    }
  }
}
