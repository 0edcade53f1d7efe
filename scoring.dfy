/**
 * The relevance score of a popup row (computeWeight): one point for each
 * distinct query word that has a qualifying match in the row, plus a bonus of
 * (number of distinct words - 1) when every word has a qualifying match in one
 * and the same token (sharedTokenBonus).
 */
module Scoring {
  import opened KotlinText
  import opened Highlight
  import opened Tokens
  import opened Tokenizer

  /** A popup row: a document line number and its normalised text. */
  datatype LineEntry = LineEntry(lineNumber: int, text: string)
  {
    /** The text the filter searches: the row text in lower case. */
    function Searchable(): string {
      Lower(text)
    }
  }

  /** LineEntry.matches: the row contains every word. */
  predicate Matches(e: LineEntry, words: seq<string>) {
    forall i :: 0 <= i < |words| ==> Contains(e.Searchable(), words[i])
  }

  predicate NoDuplicates(s: seq<string>) {
    forall i, j :: 0 <= i < j < |s| ==> s[i] != s[j]
  }

  /** List.distinct(): the first occurrence of every element, in order. */
  function Distinct(s: seq<string>): (r: seq<string>)
    ensures NoDuplicates(r)
    ensures forall x :: x in r <==> x in s
    ensures |r| <= |s|
  {
    if s == [] then []
    else
      var d := Distinct(s[..|s| - 1]);
      assert forall x :: x in s <==> x in s[..|s| - 1] || x == s[|s| - 1] by {
        assert s == s[..|s| - 1] + [s[|s| - 1]];
      }
      if s[|s| - 1] in d then d else d + [s[|s| - 1]]
  }

  /** A list without repetitions is its own distinct(). */
  lemma {:induction false} DistinctOfNoDuplicates(s: seq<string>)
    requires NoDuplicates(s)
    ensures Distinct(s) == s
  {
    if s != [] {
      var init := s[..|s| - 1];
      assert NoDuplicates(init) by {
        forall i, j | 0 <= i < j < |init| ensures init[i] != init[j] {
          assert init[i] == s[i] && init[j] == s[j];
        }
      }
      DistinctOfNoDuplicates(init);
      assert s[|s| - 1] !in init by {
        forall k | 0 <= k < |init| ensures init[k] != s[|s| - 1] {
          assert init[k] == s[k];
        }
      }
      assert s == init + [s[|s| - 1]];
    }
  }

  /** Repeating distinct() changes nothing. */
  lemma {:induction false} DistinctIdempotent(s: seq<string>)
    ensures Distinct(Distinct(s)) == Distinct(s)
  {
    DistinctOfNoDuplicates(Distinct(s));
  }

  /** The tokens of the qualifying matches of one word. */
  function QualTokens(infos: seq<MatchInfo>): set<Range> {
    set i | 0 <= i < |infos| && infos[i].qualifies :: infos[i].tokenRange
  }

  /** Some match of the word qualifies. */
  predicate AnyQualifies(infos: seq<MatchInfo>) {
    exists i :: 0 <= i < |infos| && infos[i].qualifies
  }

  lemma {:induction false} QualTokensEmpty(infos: seq<MatchInfo>)
    ensures QualTokens(infos) == {} <==> !AnyQualifies(infos)
  {
    if AnyQualifies(infos) {
      var i :| 0 <= i < |infos| && infos[i].qualifies;
      assert infos[i].tokenRange in QualTokens(infos);
    }
  }

  /** The running intersection of sharedTokenBonus after visiting every group. */
  function Common(groups: seq<seq<MatchInfo>>): set<Range>
    requires groups != []
  {
    if |groups| == 1 then QualTokens(groups[0])
    else Common(groups[..|groups| - 1]) * QualTokens(groups[|groups| - 1])
  }

  /** A token is common exactly when every word has a qualifying match in it. */
  lemma {:induction false} CommonMembers(groups: seq<seq<MatchInfo>>, t: Range)
    requires groups != []
    ensures t in Common(groups) <==> SharedBy(groups, t)
  {
    if |groups| > 1 {
      var init := groups[..|groups| - 1];
      CommonMembers(init, t);
      assert forall j :: 0 <= j < |init| ==> init[j] == groups[j];
    }
  }

  /** Every word has a qualifying match in token t. */
  predicate SharedBy(groups: seq<seq<MatchInfo>>, t: Range) {
    forall j :: 0 <= j < |groups| ==> t in QualTokens(groups[j])
  }

  /** Some token is shared by qualifying matches of every word. */
  ghost predicate SharedToken(groups: seq<seq<MatchInfo>>) {
    exists t :: SharedBy(groups, t)
  }

  /** The value sharedTokenBonus returns for the per-word match lists. */
  function SharedBonus(groups: seq<seq<MatchInfo>>, wordCount: int): int {
    if wordCount <= 1 then 0
    else if groups == [] || Common(groups) != {} then wordCount - 1
    else 0
  }

  /** The bonus is wordCount - 1 exactly when there are several words and a shared token. */
  lemma {:induction false} SharedBonusMeaning(groups: seq<seq<MatchInfo>>, wordCount: int)
    ensures SharedBonus(groups, wordCount)
         == if wordCount >= 2 && SharedToken(groups) then wordCount - 1 else 0
  {
    if groups == [] {
      assert SharedBy(groups, Range(0, 0));
    } else if Common(groups) != {} {
      var t :| t in Common(groups);
      CommonMembers(groups, t);
    } else if SharedToken(groups) {
      var t :| SharedBy(groups, t);
      CommonMembers(groups, t);
    }
  }

  /** The running intersection only shrinks as more groups are visited. */
  lemma {:induction false} CommonOfPrefix(groups: seq<seq<MatchInfo>>, k: nat)
    requires 1 <= k <= |groups|
    ensures Common(groups) <= Common(groups[..k])
    decreases |groups|
  {
    if k < |groups| {
      var init := groups[..|groups| - 1];
      assert init[..k] == groups[..k];
      CommonOfPrefix(init, k);
    } else {
      assert groups[..k] == groups;
    }
  }

  /**
   * sharedTokenBonus: intersects the qualifying tokens of the words one word
   * at a time and gives up as soon as the intersection is empty.
   */
  method SharedTokenBonus(groups: seq<seq<MatchInfo>>, wordCount: int) returns (bonus: int)
    ensures bonus == SharedBonus(groups, wordCount)
    ensures bonus == if wordCount >= 2 && SharedToken(groups) then wordCount - 1 else 0
  {
    SharedBonusMeaning(groups, wordCount);
    if wordCount <= 1 {
      return 0;
    }
    var shared: Option<set<Range>> := None;
    for i := 0 to |groups|
      invariant shared.None? <==> i == 0
      invariant i > 0 ==> shared == Some(Common(groups[..i])) && shared.value != {}
    {
      var tokens := QualTokens(groups[i]);
      assert groups[..i + 1][..i] == groups[..i];
      if tokens == {} {
        CommonOfPrefix(groups, i + 1);
        return 0;
      }
      shared := if shared.Some? then Some(shared.value * tokens) else Some(tokens);
      if shared.value == {} {
        CommonOfPrefix(groups, i + 1);
        return 0;
      }
    }
    assert groups != [] ==> groups[..|groups|] == groups;
    return wordCount - 1;
  }

  /** The match lists of every word, in word order (associateWith). */
  function Groups(text: string, words: seq<string>): (g: seq<seq<MatchInfo>>)
    ensures |g| == |words|
  {
    var lower := Lower(text);
    seq(|words|, i requires 0 <= i < |words| => MatchInfos(text, lower, words[i]))
  }

  /** The number of words having at least one qualifying match. */
  function BaseScore(groups: seq<seq<MatchInfo>>): nat {
    if groups == [] then 0
    else BaseScore(groups[..|groups| - 1]) + (if AnyQualifies(groups[|groups| - 1]) then 1 else 0)
  }

  lemma {:induction false} BaseScoreBounds(groups: seq<seq<MatchInfo>>)
    ensures BaseScore(groups) <= |groups|
    ensures BaseScore(groups) == |groups| <==> forall j :: 0 <= j < |groups| ==> AnyQualifies(groups[j])
  {
    if groups != [] {
      var init := groups[..|groups| - 1];
      BaseScoreBounds(init);
      assert forall j :: 0 <= j < |init| ==> init[j] == groups[j];
    }
  }

  /** computeWeight: the base score of the distinct words plus the shared-token bonus. */
  function ComputeWeight(e: LineEntry, words: seq<string>): (r: int)
    ensures words == [] ==> r == 0
  {
    if words == [] then 0
    else
      var distinctWords := Distinct(words);
      var groups := Groups(e.text, distinctWords);
      BaseScore(groups) + SharedBonus(groups, |distinctWords|)
  }

  /**
   * With d distinct words the score is the number of words with a qualifying
   * match, plus d - 1 exactly when d >= 2 and a token is shared by qualifying
   * matches of every word.
   */
  lemma {:induction false} WeightDecomposition(e: LineEntry, words: seq<string>)
    requires words != []
    ensures var d := Distinct(words);
      var groups := Groups(e.text, d);
      ComputeWeight(e, words)
        == BaseScore(groups) + (if |d| >= 2 && SharedToken(groups) then |d| - 1 else 0)
  {
    var d := Distinct(words);
    SharedBonusMeaning(Groups(e.text, d), |d|);
  }

  /** The score is never negative and is either at most d or exactly 2d - 1. */
  lemma {:induction false} WeightBounds(e: LineEntry, words: seq<string>)
    ensures var d := |Distinct(words)|;
      var r := ComputeWeight(e, words);
      0 <= r && (r <= d || r == 2 * d - 1)
  {
    if words != [] {
      var d := Distinct(words);
      var groups := Groups(e.text, d);
      BaseScoreBounds(groups);
      if |d| >= 2 && Common(groups) != {} {
        var t :| t in Common(groups);
        CommonMembers(groups, t);
        forall j | 0 <= j < |groups| ensures AnyQualifies(groups[j]) {
          QualTokensEmpty(groups[j]);
        }
      }
    }
  }

  /** Repeated words count once: the score of a query equals that of its distinct words. */
  lemma {:induction false} WeightOfDistinct(e: LineEntry, words: seq<string>)
    ensures ComputeWeight(e, Distinct(words)) == ComputeWeight(e, words)
  {
    DistinctIdempotent(words);
    if words != [] {
      assert words[0] in Distinct(words);
    }
  }

  /** The searchable text of the camel-case example line. */
  lemma CamelCaseLower()
    ensures Lower(CamelCaseLine) == "fun categoryhelper() {}"
  {
  }

  /**
   * A word whose first letter appears once in the lowercased text, where the
   * word occurs, has exactly one match info.
   */
  lemma {:induction false} SoleMatchInfo(text: string, w: string, k: int)
    requires |w| > 0 && k < |text| && OccursAt(Lower(text), w, k)
    requires forall q :: 0 <= q < |text| && Lower(text)[q] == w[0] ==> q == k
    ensures MatchInfos(text, Lower(text), w) == [CreateMatchInfo(text, k, |w|)]
  {
    var lower := Lower(text);
    var first := IndexOf(lower, w, 0);
    IndexOfIsFirst(lower, w, 0);
    assert first == k by {
      if first >= 0 {
        assert lower[first] == w[0];
      }
    }
    var next := IndexOf(lower, w, k + |w|);
    assert next == -1;
    assert InfosFrom(text, lower, w, next) == [];
  }

  /** "cat" occurs once in the example line, at the start of CategoryHelper. */
  lemma {:induction false} CamelCaseCatInfos()
    ensures MatchInfos(CamelCaseLine, Lower(CamelCaseLine), "cat") == [CreateMatchInfo(CamelCaseLine, 4, 3)]
  {
    var lower := Lower(CamelCaseLine);
    CamelCaseLower();
    assert "cat" == lower[4..7];
    forall q | 0 <= q < |CamelCaseLine| && lower[q] == "cat"[0] ensures q == 4 {
      assert lower[q] == "fun categoryhelper() {}"[q];
    }
    SoleMatchInfo(CamelCaseLine, "cat", 4);
  }

  /** "help" occurs once in the example line, at the capital H of CategoryHelper. */
  lemma {:induction false} CamelCaseHelpInfos()
    ensures MatchInfos(CamelCaseLine, Lower(CamelCaseLine), "help") == [CreateMatchInfo(CamelCaseLine, 12, 4)]
  {
    var lower := Lower(CamelCaseLine);
    CamelCaseLower();
    assert "help" == lower[12..16];
    forall q | 0 <= q < |CamelCaseLine| && lower[q] == "help"[0] ensures q == 12 {
      assert lower[q] == "fun categoryhelper() {}"[q];
    }
    SoleMatchInfo(CamelCaseLine, "help", 12);
  }

  /**
   * In "fun CategoryHelper() {}" the query "cat help" scores 3: both words
   * have a qualifying match (2 points) and both lie in the one token
   * CategoryHelper, which adds a bonus of 2 - 1.
   */
  lemma {:induction false} CamelCaseWeight(n: int)
    ensures ComputeWeight(LineEntry(n, CamelCaseLine), ["cat", "help"]) == 3
  {
    CamelCaseCatInfos();
    CamelCaseHelpInfos();
    CamelCaseIsOneToken();
    SharedTokenWeight(LineEntry(n, CamelCaseLine), "cat", "help",
      CreateMatchInfo(CamelCaseLine, 4, 3), CreateMatchInfo(CamelCaseLine, 12, 4), Range(4, 17));
  }

  /** Two different words with one qualifying match each, in the same token, score 2 + 1. */
  lemma {:induction false} SharedTokenWeight(e: LineEntry, w1: string, w2: string, a: MatchInfo, b: MatchInfo, t: Range)
    requires w1 != w2
    requires MatchInfos(e.text, Lower(e.text), w1) == [a] && MatchInfos(e.text, Lower(e.text), w2) == [b]
    requires a.qualifies && b.qualifies && a.tokenRange == t && b.tokenRange == t
    ensures ComputeWeight(e, [w1, w2]) == 3
  {
    var words := [w1, w2];
    DistinctOfNoDuplicates(words);
    var groups := Groups(e.text, words);
    assert groups == [[a], [b]];
    SingleMatchesInOneToken(groups, a, b, t);
  }

  /** Two words, each with one qualifying match, both in token t: base score 2 and t is shared. */
  lemma SingleMatchesInOneToken(groups: seq<seq<MatchInfo>>, a: MatchInfo, b: MatchInfo, t: Range)
    requires groups == [[a], [b]]
    requires a.qualifies && b.qualifies && a.tokenRange == t && b.tokenRange == t
    ensures BaseScore(groups) == 2
    ensures Common(groups) == {t}
  {
    assert groups[..1] == [[a]];
    QualTokensOne(a);
    QualTokensOne(b);
    assert BaseScore(groups[..1]) == 1 by {
      assert groups[..1][..0] == [];
    }
  }

  lemma QualTokensOne(m: MatchInfo)
    requires m.qualifies
    ensures QualTokens([m]) == {m.tokenRange}
  {
    assert [m][0] == m;
    assert m.tokenRange in QualTokens([m]);
  }
}
