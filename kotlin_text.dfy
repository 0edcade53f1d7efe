/**
 * The Kotlin standard-library string operations the line picker relies on,
 * restricted to ASCII: character classes, lowercasing, trimming, blank checks
 * and substring search (String.indexOf / String.contains).
 */
module KotlinText {

  /** Char.isLetterOrDigit, ASCII part. */
  predicate IsLetterOrDigit(c: char) {
    ('a' <= c <= 'z') || ('A' <= c <= 'Z') || ('0' <= c <= '9')
  }

  /** Char.isUpperCase, ASCII part. */
  predicate IsUpperCase(c: char) {
    'A' <= c <= 'Z'
  }

  /**
   * Char.isWhitespace, ASCII part: tab, line feed, vertical tab, form feed,
   * carriage return, the four information separators U+001C..U+001F and space.
   */
  predicate IsWhitespace(c: char) {
    (9 <= c as int <= 13) || (28 <= c as int <= 32)
  }

  /** The regular-expression class `\s`: tab, line feed, vertical tab, form feed, carriage return and space. */
  predicate IsRegexSpace(c: char) {
    (9 <= c as int <= 13) || c == ' '
  }

  /** Char.lowercaseChar, ASCII part. */
  function ToLower(c: char): (r: char)
    ensures !IsUpperCase(r)
    ensures IsLetterOrDigit(r) == IsLetterOrDigit(c)
    ensures IsWhitespace(r) == IsWhitespace(c) && IsRegexSpace(r) == IsRegexSpace(c)
    ensures !IsUpperCase(c) ==> r == c
  {
    if IsUpperCase(c) then (c as int + 32) as char else c
  }

  /** String.lowercase(). On ASCII text it never changes the length. */
  function Lower(s: string): (r: string)
    ensures |r| == |s|
    ensures forall i :: 0 <= i < |s| ==> r[i] == ToLower(s[i])
  {
    seq(|s|, i requires 0 <= i < |s| => ToLower(s[i]))
  }

  /** A string is in lower case when lowercasing leaves it unchanged. */
  predicate IsLowerCase(s: string) {
    Lower(s) == s
  }

  lemma {:induction false} LowerIsLowerCase(s: string)
    ensures IsLowerCase(Lower(s))
  {
    assert Lower(Lower(s)) == Lower(s);
  }

  lemma {:induction false} LowerConcat(a: string, b: string)
    ensures Lower(a + b) == Lower(a) + Lower(b)
  {
    assert Lower(a + b) == Lower(a) + Lower(b);
  }

  /** String.isBlank(): every character is whitespace (so the empty string is blank). */
  predicate IsBlank(s: string) {
    forall i :: 0 <= i < |s| ==> IsWhitespace(s[i])
  }

  /** Drops the leading whitespace of s. */
  function TrimStart(s: string): (r: string)
    ensures |r| <= |s| && r == s[|s| - |r|..]
    ensures forall k :: 0 <= k < |s| - |r| ==> IsWhitespace(s[k])
    ensures r != [] ==> !IsWhitespace(r[0])
  {
    if s != [] && IsWhitespace(s[0]) then TrimStart(s[1..]) else s
  }

  /** Drops the trailing whitespace of s. */
  function TrimEnd(s: string): (r: string)
    ensures |r| <= |s| && r == s[..|r|]
    ensures forall k :: |r| <= k < |s| ==> IsWhitespace(s[k])
    ensures r != [] ==> !IsWhitespace(r[|r| - 1])
  {
    if s != [] && IsWhitespace(s[|s| - 1]) then TrimEnd(s[..|s| - 1]) else s
  }

  /** String.trim(): drops leading and trailing whitespace. */
  function Trim(s: string): (r: string)
    ensures r == [] <==> IsBlank(s)
    ensures r != [] ==> !IsWhitespace(r[0]) && !IsWhitespace(r[|r| - 1])
  {
    var t := TrimStart(s);
    var r := TrimEnd(t);
    assert r != [] ==> r[0] == t[0];
    r
  }

  lemma {:induction false} SeqAssoc<T>(a: seq<T>, b: seq<T>, c: seq<T>)
    ensures a + (b + c) == a + b + c
  {
  }

  lemma {:induction false} TrimStartPart(s: string) returns (front: string)
    ensures s == front + TrimStart(s) && IsBlank(front)
  {
    var t := TrimStart(s);
    front := s[..|s| - |t|];
    forall k | 0 <= k < |front| ensures IsWhitespace(front[k]) {
      assert front[k] == s[k];
    }
  }

  lemma {:induction false} TrimEndPart(t: string) returns (back: string)
    ensures t == TrimEnd(t) + back && IsBlank(back)
  {
    var r := TrimEnd(t);
    back := t[|r|..];
    forall k | 0 <= k < |back| ensures IsWhitespace(back[k]) {
      assert back[k] == t[|r| + k];
    }
  }

  /** Trim keeps one slice of s, and what it drops on either side is whitespace. */
  lemma {:induction false} TrimParts(s: string) returns (front: string, back: string)
    ensures s == front + Trim(s) + back
    ensures IsBlank(front) && IsBlank(back)
  {
    front := TrimStartPart(s);
    back := TrimEndPart(TrimStart(s));
    SeqAssoc(front, TrimEnd(TrimStart(s)), back);
  }

  /** A string without whitespace at its ends is its own trim. */
  lemma {:induction false} TrimOfTrimmed(s: string)
    requires s != [] ==> !IsWhitespace(s[0]) && !IsWhitespace(s[|s| - 1])
    ensures Trim(s) == s
  {
  }

  /** w occurs in s at position k. */
  predicate OccursAt(s: string, w: string, k: int) {
    0 <= k && k + |w| <= |s| && s[k..k + |w|] == w
  }

  /** CharSequence.contains(w). */
  predicate Contains(s: string, w: string) {
    exists k :: 0 <= k <= |s| - |w| && OccursAt(s, w, k)
  }

  /**
   * String.indexOf(w, from) for a non-empty w: the first position at or after
   * from where w occurs, or -1 when there is none.
   */
  function IndexOf(s: string, w: string, from: nat): (r: int)
    requires |w| > 0
    ensures r == -1 || (from <= r && OccursAt(s, w, r))
    decreases |s| - from
  {
    if from + |w| > |s| then -1
    else if s[from..from + |w|] == w then from
    else IndexOf(s, w, from + 1)
  }

  /** indexOf answers the first occurrence: w occurs nowhere between from and the answer. */
  lemma {:induction false} IndexOfIsFirst(s: string, w: string, from: nat)
    requires |w| > 0
    ensures var r := IndexOf(s, w, from);
      forall k :: from <= k && (r == -1 || k < r) ==> !OccursAt(s, w, k)
    decreases |s| - from
  {
    if from + |w| <= |s| && s[from..from + |w|] != w {
      IndexOfIsFirst(s, w, from + 1);
    }
  }

  /** indexOf from the start finds something exactly when s contains w. */
  lemma {:induction false} IndexOfFindsContained(s: string, w: string)
    requires |w| > 0
    ensures IndexOf(s, w, 0) >= 0 <==> Contains(s, w)
  {
    var r := IndexOf(s, w, 0);
    IndexOfIsFirst(s, w, 0);
    if r >= 0 {
      assert OccursAt(s, w, r);
    }
  }
}
