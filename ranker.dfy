/**
 * The popup list: the rows built from the document, the filter and ranking
 * applied on every change of the query (applyFilter), the row selected after
 * filtering, and the moves of the selection with the arrow keys
 * (moveSelection).
 */
module Ranker {
  import opened KotlinText
  import opened Normalizer
  import opened Tokenizer
  import opened Scoring

  /** Row i holds line i. */
  predicate LinesNumbered(lines: seq<LineEntry>) {
    forall i :: 0 <= i < |lines| ==> lines[i].lineNumber == i
  }

  /** The rows appear in increasing line order. */
  predicate IncreasingLines(s: seq<LineEntry>) {
    forall i, j :: 0 <= i < j < |s| ==> s[i].lineNumber < s[j].lineNumber
  }

  /** No two rows hold the same line. */
  predicate UniqueLines(s: seq<LineEntry>) {
    forall i, j :: 0 <= i < |s| && 0 <= j < |s| && s[i].lineNumber == s[j].lineNumber ==> i == j
  }

  /**
   * The rows of a document: one per line, in line order, each holding the
   * normalised text of its line.
   */
  method BuildLines(doc: seq<string>, shorten: string -> string) returns (lines: seq<LineEntry>)
    ensures |lines| == |doc| && LinesNumbered(lines)
    ensures forall i :: 0 <= i < |lines| ==> lines[i].text == NormalizeLineText(doc[i], shorten)
  {
    lines := [];
    for line := 0 to |doc|
      invariant |lines| == line
      invariant forall i :: 0 <= i < line ==> lines[i] == LineEntry(i, NormalizeLineText(doc[i], shorten))
    {
      var normalized := NormalizeLineText(doc[line], shorten);
      lines := lines + [LineEntry(line, normalized)];
    }
  }

  /** Rows numbered by their position are in increasing line order. */
  lemma {:induction false} NumberedIncreasing(lines: seq<LineEntry>)
    requires LinesNumbered(lines)
    ensures IncreasingLines(lines) && UniqueLines(lines)
  {
    forall i, j | 0 <= i < j < |lines| ensures lines[i].lineNumber < lines[j].lineNumber {
      assert lines[i].lineNumber == i && lines[j].lineNumber == j;
    }
    forall i, j | 0 <= i < |lines| && 0 <= j < |lines| && lines[i].lineNumber == lines[j].lineNumber
      ensures i == j
    {
      assert lines[i].lineNumber == i && lines[j].lineNumber == j;
    }
  }

  lemma {:induction false} TailIncreasing(s: seq<LineEntry>)
    requires s != [] && IncreasingLines(s)
    ensures IncreasingLines(s[1..])
    ensures forall k :: 0 <= k < |s[1..]| ==> s[0].lineNumber < s[1..][k].lineNumber
  {
    forall i, j | 0 <= i < j < |s[1..]| ensures s[1..][i].lineNumber < s[1..][j].lineNumber {
      assert s[1..][i] == s[i + 1] && s[1..][j] == s[j + 1];
    }
    forall k | 0 <= k < |s[1..]| ensures s[0].lineNumber < s[1..][k].lineNumber {
      assert s[1..][k] == s[k + 1];
    }
  }

  /** A row before rows of higher lines keeps the list increasing. */
  lemma {:induction false} ConsIncreasing(x: LineEntry, t: seq<LineEntry>)
    requires IncreasingLines(t)
    requires forall k :: 0 <= k < |t| ==> x.lineNumber < t[k].lineNumber
    ensures IncreasingLines([x] + t)
  {
    var r := [x] + t;
    forall i, j | 0 <= i < j < |r| ensures r[i].lineNumber < r[j].lineNumber {
      assert r[j] == t[j - 1];
      if i > 0 {
        assert r[i] == t[i - 1];
      }
    }
  }

  /**
   * filter { it.matches(words) }: the rows that contain every word, in their
   * original order.
   */
  function Filter(source: seq<LineEntry>, words: seq<string>): (r: seq<LineEntry>)
    ensures |r| <= |source|
    ensures forall e :: e in r <==> e in source && Matches(e, words)
    ensures IncreasingLines(source) ==> IncreasingLines(r)
  {
    if source == [] then []
    else
      var rest := Filter(source[1..], words);
      assert forall e :: e in source <==> e == source[0] || e in source[1..] by {
        assert source == [source[0]] + source[1..];
      }
      if Matches(source[0], words) then
        assert IncreasingLines(source) ==> IncreasingLines([source[0]] + rest) by {
          if IncreasingLines(source) {
            TailIncreasing(source);
            forall j | 0 <= j < |rest| ensures source[0].lineNumber < rest[j].lineNumber {
              assert rest[j] in source[1..];
              var k :| 0 <= k < |source[1..]| && source[1..][k] == rest[j];
            }
            ConsIncreasing(source[0], rest);
          }
        }
        [source[0]] + rest
      else
        assert IncreasingLines(source) ==> IncreasingLines(source[1..]) by {
          if IncreasingLines(source) {
            TailIncreasing(source);
          }
        }
        rest
  }

  /** With no words every row matches, so the filter keeps them all, in order. */
  lemma {:induction false} FilterNoWords(source: seq<LineEntry>)
    ensures Filter(source, []) == source
  {
    if source != [] {
      var rest := Filter(source[1..], []);
      assert Filter(source, []) == [source[0]] + rest by {
        assert Matches(source[0], []);
      }
      assert rest == source[1..] by {
        FilterNoWords(source[1..]);
      }
      assert source == [source[0]] + source[1..];
    }
  }

  /** The weight of every row for the given words. */
  function Weigher(words: seq<string>): LineEntry -> int {
    e => ComputeWeight(e, words)
  }

  /**
   * The ranking order for a weight: a higher weight first
   * (compareByDescending), then the lower line number (thenBy).
   */
  predicate Precedes(a: LineEntry, b: LineEntry, weight: LineEntry -> int) {
    weight(a) > weight(b) || (weight(a) == weight(b) && a.lineNumber <= b.lineNumber)
  }

  predicate Ranked(s: seq<LineEntry>, weight: LineEntry -> int) {
    forall i, j :: 0 <= i < j < |s| ==> Precedes(s[i], s[j], weight)
  }

  /** The ranking order is transitive. */
  lemma {:induction false} PrecedesTransitive(a: LineEntry, b: LineEntry, c: LineEntry, weight: LineEntry -> int)
    requires Precedes(a, b, weight) && Precedes(b, c, weight)
    ensures Precedes(a, c, weight)
  {
  }

  /** Any two rows are ordered one way or the other. */
  lemma {:induction false} PrecedesTotal(a: LineEntry, b: LineEntry, weight: LineEntry -> int)
    ensures Precedes(a, b, weight) || Precedes(b, a, weight)
  {
  }

  lemma {:induction false} RankedCons(a: LineEntry, t: seq<LineEntry>, weight: LineEntry -> int)
    requires Ranked(t, weight)
    requires t == [] || Precedes(a, t[0], weight)
    ensures Ranked([a] + t, weight)
  {
    var r := [a] + t;
    forall i, j | 0 <= i < j < |r| ensures Precedes(r[i], r[j], weight) {
      if i == 0 {
        assert r[j] == t[j - 1];
        if j > 1 {
          PrecedesTransitive(a, t[0], t[j - 1], weight);
        }
      } else {
        assert r[i] == t[i - 1] && r[j] == t[j - 1];
      }
    }
  }

  /** Stable insertion into a ranked list (a new row goes after the rows it ties with). */
  function InsertRanked(x: LineEntry, s: seq<LineEntry>, weight: LineEntry -> int): (r: seq<LineEntry>)
    requires Ranked(s, weight)
    ensures Ranked(r, weight)
    ensures multiset(r) == multiset(s) + multiset{x}
    ensures |r| == |s| + 1 && (r[0] == x || (s != [] && r[0] == s[0]))
  {
    if s == [] || Precedes(x, s[0], weight) then
      RankedCons(x, s, weight);
      [x] + s
    else
      assert s == [s[0]] + s[1..];
      assert Ranked(s[1..], weight) by {
        forall i, j | 0 <= i < j < |s[1..]| ensures Precedes(s[1..][i], s[1..][j], weight) {
          assert s[1..][i] == s[i + 1] && s[1..][j] == s[j + 1];
        }
      }
      var t := InsertRanked(x, s[1..], weight);
      assert t[0] == x || t[0] == s[1];
      PrecedesTotal(x, s[0], weight);
      RankedCons(s[0], t, weight);
      [s[0]] + t
  }

  /** sortedWith(compareByDescending weight, thenBy line number). */
  function SortByRank(s: seq<LineEntry>, weight: LineEntry -> int): (r: seq<LineEntry>)
    ensures Ranked(r, weight)
    ensures multiset(r) == multiset(s)
  {
    if s == [] then []
    else
      assert s == [s[0]] + s[1..];
      InsertRanked(s[0], SortByRank(s[1..], weight), weight)
  }

  /** The first row of a ranked list precedes every row of it. */
  lemma {:induction false} HeadPrecedes(a: seq<LineEntry>, x: LineEntry, weight: LineEntry -> int)
    requires Ranked(a, weight) && x in a
    ensures Precedes(a[0], x, weight)
  {
    var i :| 0 <= i < |a| && a[i] == x;
    if i == 0 {
      assert a[0].lineNumber <= x.lineNumber;
    }
  }

  lemma {:induction false} TailRanked(a: seq<LineEntry>, weight: LineEntry -> int)
    requires a != [] && Ranked(a, weight)
    ensures Ranked(a[1..], weight)
  {
    forall p, q | 0 <= p < q < |a[1..]| ensures Precedes(a[1..][p], a[1..][q], weight) {
      assert a[1..][p] == a[p + 1] && a[1..][q] == a[q + 1];
    }
  }

  lemma {:induction false} TailUnique(a: seq<LineEntry>)
    requires a != [] && UniqueLines(a)
    ensures UniqueLines(a[1..])
  {
    forall p, q | 0 <= p < |a[1..]| && 0 <= q < |a[1..]| && a[1..][p].lineNumber == a[1..][q].lineNumber
      ensures p == q
    {
      assert a[1..][p] == a[p + 1] && a[1..][q] == a[q + 1];
    }
  }

  /**
   * Rows holding distinct lines have exactly one ranked order: any sort by
   * the ranking comparator, stable or not, gives this list.
   */
  lemma {:induction false} RankedUnique(a: seq<LineEntry>, b: seq<LineEntry>, weight: LineEntry -> int)
    requires multiset(a) == multiset(b) && UniqueLines(a)
    requires Ranked(a, weight) && Ranked(b, weight)
    ensures a == b
    decreases |a|
  {
    if a != [] {
      SameHead(a, b, weight);
      MultisetTail(a, b);
      TailUnique(a);
      TailRanked(a, weight);
      TailRanked(b, weight);
      RankedUnique(a[1..], b[1..], weight);
    }
  }

  /** Two ranked orders of the same rows with distinct lines start with the same row. */
  lemma {:induction false} SameHead(a: seq<LineEntry>, b: seq<LineEntry>, weight: LineEntry -> int)
    requires a != [] && multiset(a) == multiset(b) && UniqueLines(a)
    requires Ranked(a, weight) && Ranked(b, weight)
    ensures b != [] && a[0] == b[0]
  {
    assert a[0] in multiset(b);
    assert b != [];
    assert b[0] in multiset(a);
    HeadPrecedes(a, b[0], weight);
    HeadPrecedes(b, a[0], weight);
    var j :| 0 <= j < |a| && a[j] == b[0];
    assert a[j].lineNumber == a[0].lineNumber;
  }

  lemma {:induction false} MultisetTail(a: seq<LineEntry>, b: seq<LineEntry>)
    requires a != [] && b != [] && a[0] == b[0] && multiset(a) == multiset(b)
    ensures multiset(a[1..]) == multiset(b[1..])
  {
    assert a == [a[0]] + a[1..] && b == [b[0]] + b[1..];
    assert multiset(a) == multiset{a[0]} + multiset(a[1..]);
    assert multiset(b) == multiset{b[0]} + multiset(b[1..]);
    forall y ensures multiset(a[1..])[y] == multiset(b[1..])[y] {
      assert multiset(a)[y] == multiset{a[0]}[y] + multiset(a[1..])[y];
      assert multiset(b)[y] == multiset{b[0]}[y] + multiset(b[1..])[y];
    }
  }

  /** The rows applyFilter shows: all of them with no words, else the matching rows ranked. */
  function Arrange(source: seq<LineEntry>, words: seq<string>): seq<LineEntry> {
    if words == [] then source else SortByRank(Filter(source, words), Weigher(words))
  }

  /**
   * What the list shows after a query: with no words, every row in document
   * order; otherwise exactly the rows containing every word, ranked.
   */
  lemma {:induction false} ArrangeFacts(source: seq<LineEntry>, words: seq<string>)
    ensures words == [] ==> Arrange(source, words) == source
    ensures forall e :: e in Arrange(source, words) <==> e in source && Matches(e, words)
    ensures words != [] ==> Ranked(Arrange(source, words), Weigher(words))
    ensures |Arrange(source, words)| <= |source|
  {
    if words == [] {
      FilterNoWords(source);
    } else {
      var f := Filter(source, words);
      var r := SortByRank(f, Weigher(words));
      assert |r| == |f| by { assert |multiset(r)| == |multiset(f)|; }
      forall e ensures e in r <==> e in f {
        assert e in r <==> e in multiset(r);
        assert e in f <==> e in multiset(f);
      }
    }
  }

  /** Rows with distinct lines keep distinct lines when filtered and ranked. */
  lemma {:induction false} ArrangeUnique(source: seq<LineEntry>, words: seq<string>)
    requires IncreasingLines(source)
    ensures UniqueLines(Arrange(source, words))
  {
    if words != [] {
      var f := Filter(source, words);
      var r := SortByRank(f, Weigher(words));
      IncreasingUnique(f);
      forall i, j | 0 <= i < |r| && 0 <= j < |r| && r[i].lineNumber == r[j].lineNumber
        ensures i == j
      {
        if i != j {
          DistinctPositions(r, f, i, j);
        }
      }
    } else {
      IncreasingUnique(source);
    }
  }

  lemma {:induction false} IncreasingUnique(s: seq<LineEntry>)
    requires IncreasingLines(s)
    ensures UniqueLines(s)
  {
  }

  /**
   * Whatever sort by the ranking comparator the platform applies, it gives
   * the rows applyFilter shows: a permutation of the matching rows in ranked
   * order is this list.
   */
  lemma {:induction false} ArrangeIsTheRanking(lines: seq<LineEntry>, words: seq<string>, other: seq<LineEntry>)
    requires IncreasingLines(lines) && words != []
    requires multiset(other) == multiset(Filter(lines, words))
    requires Ranked(other, Weigher(words))
    ensures other == Arrange(lines, words)
  {
    ArrangeUnique(lines, words);
    RankedUnique(Arrange(lines, words), other, Weigher(words));
  }

  /** Two positions of a permutation of a list with unique lines hold different lines. */
  lemma {:induction false} DistinctPositions(r: seq<LineEntry>, f: seq<LineEntry>, i: int, j: int)
    requires multiset(r) == multiset(f) && UniqueLines(f)
    requires 0 <= i < |r| && 0 <= j < |r| && i != j
    ensures r[i].lineNumber != r[j].lineNumber
  {
    if r[i].lineNumber == r[j].lineNumber {
      assert r[i] in multiset(f) && r[j] in multiset(f);
      var p :| 0 <= p < |f| && f[p] == r[i];
      var q :| 0 <= q < |f| && f[q] == r[j];
      assert p == q;
      var rest := r[..i] + r[i + 1..];
      assert r == r[..i] + [r[i]] + r[i + 1..];
      assert multiset(r) == multiset(rest) + multiset{r[i]};
      assert r[j] in rest by {
        if j < i {
          assert rest[j] == r[j];
        } else {
          assert rest[j - 1] == r[j];
        }
      }
      assert multiset(f)[r[i]] >= 2;
      MultisetOfUnique(f, p);
    }
  }

  /** A row of a list with unique lines occurs in it once. */
  lemma {:induction false} MultisetOfUnique(f: seq<LineEntry>, p: int)
    requires UniqueLines(f) && 0 <= p < |f|
    ensures multiset(f)[f[p]] == 1
    decreases |f|
  {
    var x := f[p];
    var init := f[..|f| - 1];
    var last := f[|f| - 1];
    assert f == init + [last];
    assert UniqueLines(init) by {
      forall a, b | 0 <= a < |init| && 0 <= b < |init| && init[a].lineNumber == init[b].lineNumber
        ensures a == b
      {
        assert init[a] == f[a] && init[b] == f[b];
      }
    }
    if p == |f| - 1 {
      assert x !in init by {
        forall a | 0 <= a < |init| ensures init[a] != x {
          assert init[a] == f[a];
        }
      }
      assert multiset(init)[x] == 0;
    } else {
      assert init[p] == x;
      MultisetOfUnique(init, p);
      assert last != x;
    }
  }

  /** indexOfFirst { it.lineNumber == line }: the first row holding the line, or -1. */
  function IndexOfLine(entries: seq<LineEntry>, line: int): (r: int)
    ensures -1 <= r < |entries|
    ensures r >= 0 ==> entries[r].lineNumber == line
    ensures forall k :: 0 <= k < |entries| && (r == -1 || k < r) ==> entries[k].lineNumber != line
  {
    if entries == [] then -1
    else if entries[0].lineNumber == line then 0
    else
      var t := IndexOfLine(entries[1..], line);
      assert forall k :: 1 <= k < |entries| ==> entries[k] == entries[1..][k - 1];
      if t < 0 then -1 else t + 1
  }

  /** In the rows of a document, line c is found at position c. */
  lemma {:induction false} IndexOfNumbered(lines: seq<LineEntry>, c: int)
    requires LinesNumbered(lines)
    ensures IndexOfLine(lines, c) == if 0 <= c < |lines| then c else -1
  {
    var r := IndexOfLine(lines, c);
    if 0 <= c < |lines| {
      assert lines[c].lineNumber == c;
    }
    if r >= 0 {
      assert lines[r].lineNumber == r;
    }
  }

  /**
   * The row selected after filtering: none for an empty list; with no words
   * the caret's row when it is shown, else the first row; with words the
   * first (best-ranked) row.
   */
  function TargetIndex(sorted: seq<LineEntry>, words: seq<string>, caretLine: int): (r: int)
    ensures sorted == [] <==> r == -1
    ensures -1 <= r < |sorted|
    ensures words != [] ==> r == (if sorted == [] then -1 else 0)
    ensures words == [] && sorted != [] ==>
      r == (if IndexOfLine(sorted, caretLine) >= 0 then IndexOfLine(sorted, caretLine) else 0)
  {
    if sorted == [] then -1
    else if words == [] then
      var caretIndex := IndexOfLine(sorted, caretLine);
      if caretIndex >= 0 then caretIndex else 0
    else 0
  }

  /** With no words and the caret on a line of the document, the caret's row is selected. */
  lemma {:induction false} SelectionOnCaret(lines: seq<LineEntry>, caretLine: int)
    requires LinesNumbered(lines) && 0 <= caretLine < |lines|
    ensures TargetIndex(Arrange(lines, []), [], caretLine) == caretLine
  {
    IndexOfNumbered(lines, caretLine);
  }

  /** With words, the selected row has the highest weight among the rows shown. */
  lemma {:induction false} SelectionOnBest(source: seq<LineEntry>, words: seq<string>, caretLine: int)
    requires words != [] && Arrange(source, words) != []
    ensures var shown := Arrange(source, words);
      && TargetIndex(shown, words, caretLine) == 0
      && forall k :: 0 <= k < |shown| ==> ComputeWeight(shown[k], words) <= ComputeWeight(shown[0], words)
  {
    var shown := Arrange(source, words);
    ArrangeFacts(source, words);
    forall k | 0 <= k < |shown| ensures ComputeWeight(shown[k], words) <= ComputeWeight(shown[0], words) {
      if k > 0 {
        assert Precedes(shown[0], shown[k], Weigher(words));
      }
    }
  }

  /**
   * The selection after moveSelection on a list of `size` rows: from the
   * current row, or the first row when nothing is selected, `delta` rows
   * on, clamped to the list.
   */
  function Step(size: int, selected: int, delta: int): (r: int)
    requires size > 0
    ensures 0 <= r < size
  {
    var current := if selected >= 0 then selected else 0;
    var next := current + delta;
    if next < 0 then 0 else if next > size - 1 then size - 1 else next
  }

  /** Inside the list a move goes exactly delta rows; beyond it, it stops at the end. */
  lemma {:induction false} StepMeaning(size: int, selected: int, delta: int)
    requires size > 0 && 0 <= selected < size
    ensures 0 <= selected + delta < size ==> Step(size, selected, delta) == selected + delta
    ensures selected + delta < 0 ==> Step(size, selected, delta) == 0
    ensures selected + delta >= size ==> Step(size, selected, delta) == size - 1
  {
  }

  /** Down then up returns to the row left, unless the first move hit the last row. */
  lemma {:induction false} StepDownUp(size: int, selected: int)
    requires size > 0 && 0 <= selected < size - 1
    ensures Step(size, Step(size, selected, 1), -1) == selected
  {
  }

  /** Moves in one direction add up. */
  lemma {:induction false} StepsAdd(size: int, selected: int, a: int, b: int)
    requires size > 0 && 0 <= selected < size
    requires (a >= 0 && b >= 0) || (a <= 0 && b <= 0)
    ensures Step(size, Step(size, selected, a), b) == Step(size, selected, a + b)
  {
  }

  /** FilterResult: the words of the query and the rows shown for them. */
  datatype FilterResult = FilterResult(words: seq<string>, entries: seq<LineEntry>)

  /**
   * The state of an open popup: the rows of the document, the caret line,
   * the rows the list shows with the selected one (-1 for none), and the
   * words and rows of the last query.
   */
  class LinePicker {
    const lines: seq<LineEntry>
    const caretLine: int
    var items: seq<LineEntry>
    var selectedIndex: int
    var currentSearchWords: seq<string>
    var currentMatchedEntries: seq<LineEntry>

    /**
     * The list shows the rows arranged for the current words, these rows
     * are the matched entries, and a row is selected exactly when the list
     * is not empty.
     */
    predicate Valid()
      reads this
    {
      && LinesNumbered(lines)
      && (forall i :: 0 <= i < |currentSearchWords| ==> IsSearchWord(currentSearchWords[i]))
      && items == Arrange(lines, currentSearchWords)
      && currentMatchedEntries == items
      && -1 <= selectedIndex < |items|
      && (items == [] <==> selectedIndex == -1)
    }

    /** Opens the popup: builds the rows and applies the initial, empty query. */
    constructor (doc: seq<string>, shorten: string -> string, caret: int)
      ensures Valid()
      ensures |lines| == |doc| && caretLine == caret
      ensures forall i :: 0 <= i < |lines| ==> lines[i].text == NormalizeLineText(doc[i], shorten)
      ensures currentSearchWords == [] && items == lines
      ensures selectedIndex == TargetIndex(lines, [], caret)
    {
      var built := BuildLines(doc, shorten);
      lines := built;
      caretLine := caret;
      items := built;
      selectedIndex := -1;
      currentSearchWords := [];
      currentMatchedEntries := [];
      new;
      TextChanged("");
    }

    /**
     * applyFilter: parses the query, shows the rows arranged for its words,
     * selects the target row and returns the words with the rows shown.
     */
    method ApplyFilter(query: string) returns (result: FilterResult)
      modifies this
      ensures result.words == ParseSearchWords(Some(query))
      ensures items == Arrange(lines, result.words) && result.entries == items
      ensures selectedIndex == TargetIndex(items, result.words, caretLine)
      ensures currentSearchWords == old(currentSearchWords)
      ensures currentMatchedEntries == old(currentMatchedEntries)
    {
      var words := ParseSearchWords(Some(query));
      var filtered := if words == [] then lines else Filter(lines, words);
      var sorted := if words == [] then filtered else SortByRank(filtered, Weigher(words));
      items := sorted;
      if sorted == [] {
        selectedIndex := -1;
        return FilterResult(words, []);
      }
      var targetIndex := if words == [] then
        (var caretIndex := IndexOfLine(sorted, caretLine); if caretIndex >= 0 then caretIndex else 0)
      else 0;
      selectedIndex := targetIndex;
      result := FilterResult(words, sorted);
    }

    /** The search field changed: filter, then remember the words and rows. */
    method TextChanged(query: string)
      requires LinesNumbered(lines)
      modifies this
      ensures Valid()
      ensures currentSearchWords == ParseSearchWords(Some(query))
      ensures selectedIndex == TargetIndex(items, currentSearchWords, caretLine)
    {
      var filterResult := ApplyFilter(query);
      currentSearchWords := filterResult.words;
      currentMatchedEntries := filterResult.entries;
    }

    /** moveSelection: nothing on an empty list, otherwise a clamped move. */
    method MoveSelection(delta: int)
      requires Valid()
      modifies this
      ensures Valid()
      ensures items == old(items) && currentSearchWords == old(currentSearchWords)
      ensures currentMatchedEntries == old(currentMatchedEntries)
      ensures selectedIndex == if |items| <= 0 then old(selectedIndex) else Step(|items|, old(selectedIndex), delta)
    {
      var size := |items|;
      if size <= 0 {
        return;
      }
      var current := if selectedIndex >= 0 then selectedIndex else 0;
      var next := current + delta;
      next := if next < 0 then 0 else if next > size - 1 then size - 1 else next;
      selectedIndex := next;
    }
  }
}
