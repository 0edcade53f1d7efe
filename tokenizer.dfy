/**
 * The query tokenizer: a query is split on runs of whitespace into lowercase
 * search words, and the renderer and the cursor placement clean a word list
 * again before they use it.
 */
module Tokenizer {
  import opened KotlinText

  datatype Option<T> = None | Some(value: T)

  /** The first regex-whitespace position of s, or |s|. */
  function FirstSpace(s: string): (k: nat)
    ensures k <= |s| && (k < |s| ==> IsRegexSpace(s[k]))
    ensures forall i :: 0 <= i < k ==> !IsRegexSpace(s[i])
  {
    if s == [] || IsRegexSpace(s[0]) then 0 else 1 + FirstSpace(s[1..])
  }

  /** The length of the run of regex whitespace that s starts with. */
  function SpaceRun(s: string): (k: nat)
    ensures k <= |s| && (k < |s| ==> !IsRegexSpace(s[k]))
    ensures forall i :: 0 <= i < k ==> IsRegexSpace(s[i])
  {
    if s != [] && IsRegexSpace(s[0]) then 1 + SpaceRun(s[1..]) else 0
  }

  /** No character of s is regex whitespace. */
  predicate SpaceFree(s: string) {
    forall i :: 0 <= i < |s| ==> !IsRegexSpace(s[i])
  }

  /**
   * Regex("\\s+").split(s): the pieces between maximal runs of whitespace,
   * with an empty piece before a leading run and after a trailing one.
   */
  function Split(s: string): seq<string>
    decreases |s|
  {
    var k := FirstSpace(s);
    if k == |s| then [s]
    else
      var rest := s[k..];
      var m := SpaceRun(rest);
      [s[..k]] + Split(rest[m..])
  }

  function Concat(ss: seq<string>): string {
    if ss == [] then [] else ss[0] + Concat(ss[1..])
  }

  /** s without its regex-whitespace characters. */
  function RemoveSpaces(s: string): string {
    if s == [] then []
    else (if IsRegexSpace(s[0]) then [] else [s[0]]) + RemoveSpaces(s[1..])
  }

  lemma {:induction false} RemoveSpacesConcat(a: string, b: string)
    ensures RemoveSpaces(a + b) == RemoveSpaces(a) + RemoveSpaces(b)
  {
    if a == [] {
      assert a + b == b;
    } else {
      assert (a + b)[0] == a[0];
      assert (a + b)[1..] == a[1..] + b;
      RemoveSpacesConcat(a[1..], b);
    }
  }

  lemma {:induction false} RemoveSpacesOfSpaceFree(s: string)
    requires SpaceFree(s)
    ensures RemoveSpaces(s) == s
  {
    if s != [] {
      RemoveSpacesOfSpaceFree(s[1..]);
    }
  }

  lemma {:induction false} RemoveSpacesOfSpaces(s: string)
    requires forall i :: 0 <= i < |s| ==> IsRegexSpace(s[i])
    ensures RemoveSpaces(s) == []
  {
    if s != [] {
      RemoveSpacesOfSpaces(s[1..]);
    }
  }

  /** One step of Split: the leading piece, the whitespace run after it, and the rest. */
  lemma {:induction false} SplitStep(s: string) returns (head: string, run: string, tail: string)
    requires FirstSpace(s) < |s|
    ensures Split(s) == [head] + Split(tail)
    ensures s == head + run + tail && |tail| < |s|
    ensures SpaceFree(head) && forall i :: 0 <= i < |run| ==> IsRegexSpace(run[i])
  {
    var k := FirstSpace(s);
    var rest := s[k..];
    var m := SpaceRun(rest);
    head, run, tail := s[..k], rest[..m], rest[m..];
    SplitUnfold(s);
    ThreeParts(s, k, m);
    PrefixSpaceFree(s, k);
    PrefixSpaces(rest, m);
  }

  lemma {:induction false} SplitUnfold(s: string)
    requires FirstSpace(s) < |s|
    ensures var k := FirstSpace(s);
      Split(s) == [s[..k]] + Split(s[k..][SpaceRun(s[k..])..])
  {
  }

  lemma {:induction false} ThreeParts(s: string, k: nat, m: nat)
    requires k <= |s| && m <= |s| - k
    ensures s == s[..k] + s[k..][..m] + s[k..][m..]
  {
    var rest := s[k..];
    assert s == s[..k] + rest;
    assert rest == rest[..m] + rest[m..];
    SeqAssoc(s[..k], rest[..m], rest[m..]);
  }

  lemma {:induction false} PrefixSpaceFree(s: string, k: nat)
    requires k <= |s| && forall i :: 0 <= i < k ==> !IsRegexSpace(s[i])
    ensures SpaceFree(s[..k])
  {
    forall i | 0 <= i < k ensures !IsRegexSpace(s[..k][i]) {
      assert s[..k][i] == s[i];
    }
  }

  lemma {:induction false} PrefixSpaces(s: string, k: nat)
    requires k <= |s| && forall i :: 0 <= i < k ==> IsRegexSpace(s[i])
    ensures forall i :: 0 <= i < k ==> IsRegexSpace(s[..k][i])
  {
    forall i | 0 <= i < k ensures IsRegexSpace(s[..k][i]) {
      assert s[..k][i] == s[i];
    }
  }

  /** Every piece of a split is free of whitespace. */
  lemma {:induction false} SplitPiecesSpaceFree(s: string)
    ensures forall i :: 0 <= i < |Split(s)| ==> SpaceFree(Split(s)[i])
    decreases |s|
  {
    if FirstSpace(s) < |s| {
      var head, run, tail := SplitStep(s);
      SplitPiecesSpaceFree(tail);
    }
  }

  lemma {:induction false} RemoveSpacesStep(head: string, run: string, tail: string)
    requires SpaceFree(head)
    requires forall i :: 0 <= i < |run| ==> IsRegexSpace(run[i])
    ensures RemoveSpaces(head + run + tail) == head + RemoveSpaces(tail)
  {
    RemoveSpacesConcat(head + run, tail);
    RemoveSpacesConcat(head, run);
    RemoveSpacesOfSpaceFree(head);
    RemoveSpacesOfSpaces(run);
  }

  /** Splitting loses the whitespace and nothing else: the pieces, joined, are s without its whitespace, in order. */
  lemma {:induction false} SplitKeepsText(s: string)
    ensures Concat(Split(s)) == RemoveSpaces(s)
    decreases |s|
  {
    if FirstSpace(s) == |s| {
      RemoveSpacesOfSpaceFree(s);
      assert Split(s) == [s];
      assert Concat([s]) == s + Concat([]);
    } else {
      var head, run, tail := SplitStep(s);
      assert Concat(Split(s)) == head + Concat(Split(tail)) by {
        ConcatAppend(head, Split(tail));
      }
      SplitKeepsText(tail);
      RemoveSpacesStep(head, run, tail);
    }
  }

  /** filter { it.isNotBlank() } */
  function NonBlank(ss: seq<string>): (r: seq<string>)
    ensures forall i :: 0 <= i < |r| ==> !IsBlank(r[i])
    ensures forall i :: 0 <= i < |r| ==> r[i] in ss
    ensures forall x :: x in r <==> x in ss && !IsBlank(x)
  {
    if ss == [] then []
    else (if IsBlank(ss[0]) then [] else [ss[0]]) + NonBlank(ss[1..])
  }

  /** The filter keeps the order: filtering a concatenation filters each part. */
  lemma {:induction false} NonBlankConcat(a: seq<string>, b: seq<string>)
    ensures NonBlank(a + b) == NonBlank(a) + NonBlank(b)
    decreases |a|
  {
    if a == [] {
      assert a + b == b;
    } else {
      assert (a + b)[1..] == a[1..] + b;
      NonBlankConcat(a[1..], b);
    }
  }

  /** One element is kept exactly when it is not blank. */
  lemma NonBlankOne(x: string)
    ensures NonBlank([x]) == if IsBlank(x) then [] else [x]
  {
    assert [x][1..] == [];
  }

  /** map { it.lowercase() } */
  function LowerAll(ss: seq<string>): (r: seq<string>)
    ensures |r| == |ss|
    ensures forall i :: 0 <= i < |ss| ==> r[i] == Lower(ss[i])
  {
    seq(|ss|, i requires 0 <= i < |ss| => Lower(ss[i]))
  }

  /** A search word: not blank, free of regex whitespace, lowercase. */
  predicate IsSearchWord(w: string) {
    w != [] && !IsBlank(w) && SpaceFree(w) && IsLowerCase(w)
  }

  /**
   * parseSearchWords: no words for a missing or blank query, otherwise the
   * non-blank whitespace-separated pieces of the trimmed query, lowercased,
   * in query order and with repeats kept.
   */
  function ParseSearchWords(query: Option<string>): (r: seq<string>)
    ensures (query.None? || IsBlank(query.value)) ==> r == []
    ensures forall i :: 0 <= i < |r| ==> IsSearchWord(r[i])
  {
    if query.None? || IsBlank(query.value) then []
    else
      var pieces := NonBlank(Split(Trim(query.value)));
      SplitPiecesSpaceFree(Trim(query.value));
      var r := LowerAll(pieces);
      assert forall i :: 0 <= i < |r| ==> IsSearchWord(r[i]) by {
        forall i | 0 <= i < |r|
          ensures IsSearchWord(r[i])
        {
          var p := pieces[i];
          assert SpaceFree(p);
          assert !IsBlank(p);
          var j :| 0 <= j < |p| && !IsWhitespace(p[j]);
          assert !IsWhitespace(r[i][j]);
          LowerIsLowerCase(p);
        }
      }
      r
  }

  /**
   * filter { it.isNotBlank() }.map { it.lowercase() }, applied by the renderer,
   * the cursor placement and the editor highlighter to the current words.
   */
  function NormalizeWords(words: seq<string>): (r: seq<string>)
    ensures forall i :: 0 <= i < |r| ==> r[i] != [] && !IsBlank(r[i]) && IsLowerCase(r[i])
  {
    var pieces := NonBlank(words);
    var r := LowerAll(pieces);
    assert forall i :: 0 <= i < |r| ==> r[i] != [] && !IsBlank(r[i]) && IsLowerCase(r[i]) by {
      forall i | 0 <= i < |r|
        ensures r[i] != [] && !IsBlank(r[i]) && IsLowerCase(r[i])
      {
        var p := pieces[i];
        var j :| 0 <= j < |p| && !IsWhitespace(p[j]);
        assert !IsWhitespace(r[i][j]);
        LowerIsLowerCase(p);
      }
    }
    r
  }

  lemma {:induction false} NonBlankOfNonBlank(ss: seq<string>)
    requires forall i :: 0 <= i < |ss| ==> !IsBlank(ss[i])
    ensures NonBlank(ss) == ss
  {
    if ss != [] {
      NonBlankOfNonBlank(ss[1..]);
    }
  }

  /** Cleaning the words a query was parsed into gives the same words back. */
  lemma {:induction false} NormalizeParsedWords(query: Option<string>)
    ensures NormalizeWords(ParseSearchWords(query)) == ParseSearchWords(query)
  {
    var ws := ParseSearchWords(query);
    NonBlankOfNonBlank(ws);
  }

  /** A whitespace character that `\s` does not match (U+001C..U+001F). */
  predicate IsSeparatorOnly(c: char) {
    IsWhitespace(c) && !IsRegexSpace(c)
  }

  predicate NoSeparatorOnly(s: string) {
    forall i :: 0 <= i < |s| ==> !IsSeparatorOnly(s[i])
  }

  lemma {:induction false} RemoveSpacesKeepsNoSeparator(s: string)
    requires NoSeparatorOnly(s)
    ensures NoSeparatorOnly(RemoveSpaces(s))
  {
    if s != [] {
      RemoveSpacesKeepsNoSeparator(s[1..]);
    }
  }

  lemma {:induction false} RemoveSpacesOfWhitespace(x: string)
    requires IsBlank(x) && NoSeparatorOnly(x)
    ensures RemoveSpaces(x) == []
  {
    RemoveSpacesOfSpaces(x);
  }

  lemma {:induction false} NoSeparatorOnlyParts(a: string, b: string, c: string)
    requires NoSeparatorOnly(a + b + c)
    ensures NoSeparatorOnly(a) && NoSeparatorOnly(c)
  {
    var s := a + b + c;
    forall k | 0 <= k < |a| ensures !IsSeparatorOnly(a[k]) {
      assert a[k] == s[k];
    }
    forall k | 0 <= k < |c| ensures !IsSeparatorOnly(c[k]) {
      assert c[k] == s[|a| + |b| + k];
    }
  }

  /** Trimming removes only whitespace, so without separator-only characters it removes only what RemoveSpaces removes. */
  lemma {:induction false} RemoveSpacesOfTrim(s: string)
    requires NoSeparatorOnly(s)
    ensures RemoveSpaces(Trim(s)) == RemoveSpaces(s)
  {
    var front, back := TrimParts(s);
    NoSeparatorOnlyParts(front, Trim(s), back);
    RemoveSpacesOfWhitespace(front);
    RemoveSpacesOfWhitespace(back);
    RemoveSpacesConcat(front + Trim(s), back);
    RemoveSpacesConcat(front, Trim(s));
  }

  lemma {:induction false} ConcatAppend(a: string, ss: seq<string>)
    ensures Concat([a] + ss) == a + Concat(ss)
  {
    assert ([a] + ss)[1..] == ss;
  }

  lemma {:induction false} NonBlankKeepsText(ss: seq<string>)
    requires forall i :: 0 <= i < |ss| ==> SpaceFree(ss[i])
    requires NoSeparatorOnly(Concat(ss))
    ensures Concat(NonBlank(ss)) == Concat(ss)
  {
    if ss != [] {
      var c := Concat(ss[1..]);
      assert Concat(ss) == ss[0] + c;
      assert NoSeparatorOnly(c) by {
        forall i | 0 <= i < |c| ensures !IsSeparatorOnly(c[i]) {
          assert c[i] == Concat(ss)[|ss[0]| + i];
        }
      }
      NonBlankKeepsText(ss[1..]);
      if IsBlank(ss[0]) {
        if ss[0] != [] {
          assert Concat(ss)[0] == ss[0][0];
          assert false;
        }
        assert NonBlank(ss) == NonBlank(ss[1..]);
        assert Concat(ss) == c;
      } else {
        ConcatAppend(ss[0], NonBlank(ss[1..]));
      }
    }
  }

  lemma {:induction false} LowerAllConcat(ss: seq<string>)
    ensures Concat(LowerAll(ss)) == Lower(Concat(ss))
  {
    if ss != [] {
      LowerAllConcat(ss[1..]);
      assert LowerAll(ss)[1..] == LowerAll(ss[1..]);
      LowerConcat(ss[0], Concat(ss[1..]));
    }
  }

  /**
   * The words are the query's text in order, lowercased, with only the
   * whitespace taken out: nothing is reordered and repeated words are kept.
   * (Characters U+001C..U+001F are excluded, because trim and isBlank treat
   * them as whitespace while the splitting pattern does not.)
   */
  lemma {:induction false} ParseKeepsQueryText(q: string)
    requires NoSeparatorOnly(q)
    ensures Concat(ParseSearchWords(Some(q))) == Lower(RemoveSpaces(q))
  {
    if IsBlank(q) {
      RemoveSpacesOfSpaces(q);
    } else {
      var t := Trim(q);
      RemoveSpacesOfTrim(q);
      SplitKeepsText(t);
      RemoveSpacesKeepsNoSeparator(t);
      SplitPiecesSpaceFree(t);
      NonBlankKeepsText(Split(t));
      LowerAllConcat(NonBlank(Split(t)));
    }
  }
}
