# Swiper line picker: a Dafny model of its search core

Swiper is an IntelliJ plugin. It opens a popup listing every line of the current
document. A query typed into the popup narrows the list to the lines that contain
every query word, and ranks them. The rows show the matched spans in bold. The
editor caret previews the first match of the selected line.

This project models the search core of `LinePickerAction.kt` in Dafny and proves
properties of it:

- how a document line becomes a row text, and how a query becomes search words;
- the row filter, the relevance weight and the ranking;
- where the selection lands, and how it moves;
- the highlight ranges, the bold and regular fragments of a rendered row, and the
  editor offsets of a line's matches;
- the preview target of a line.

Modules, one per file:

| file | module | models |
|---|---|---|
| kotlin_text.dfy | KotlinText | the Kotlin string library the core relies on (`lowercase`, `trim`, `isBlank`, `isWhitespace`, `indexOf`, `contains`) |
| normalizer.dfy | Normalizer | `normalizeLineText` |
| tokenizer.dfy | Tokenizer | `parseSearchWords` and the `filter { isNotBlank } .map { lowercase }` clean-up of words |
| highlight.dfy | Highlight | `collectMatchesInText`: the scan, the sort and the merge of match ranges |
| tokens.dfy | Tokens | `findTokenStart`, `findTokenEnd`, `MatchInfo`, `createMatchInfo`, `collectMatchInfos` |
| scoring.dfy | Scoring | `LineEntry`, `matches`, `computeWeight`, `sharedTokenBonus` |
| ranker.dfy | Ranker | the row list, the filter, sort and target-index part of `applyFilter`, `moveSelection`, the popup state |
| render.dfy | Render | the segment loop of `LineEntryRenderer.customizeCellRenderer` |
| preview.dfy | Preview | `LineMatchRange`, `collectLineMatchRanges`, `findPreviewTarget` |

The loop-based members of the source are Dafny methods:

- in Highlight, the search loops and the merge loop;
- in Tokens, the token scans and the `indexOf` loop of `collectMatchInfos`;
- `sharedTokenBonus` in Scoring;
- the segment loop of the renderer.

Each of these methods is proved equal to a specification function. The properties
are then proved about those functions as lemmas.

The popup is a class, `Ranker.LinePicker`:

- its fields are the state that the source's listeners update: the shown rows, the
  selected index, and the current words and matched rows;
- `ApplyFilter`, `TextChanged` and `MoveSelection` change those fields;
- `Valid()` is the invariant that these methods and the constructor keep.

Modelling choices:

- Strings are `seq<char>`.
- Character classes are ASCII:
  - letters and digits;
  - upper case;
  - Kotlin `isWhitespace` restricted to ASCII, that is codes 9-13 and 28-32;
  - regex `\s`, that is codes 9-13 and 32.
- Lowercasing therefore keeps the length of a string. The source relies on this
  when it uses an index into the lowercased text as an index into the original.
- A document is a sequence of lines. The offset of a line is the sum of the
  earlier lines' lengths, each plus one for its line separator.

The example line `"fun CategoryHelper() {}"` with the query `"cat help"` shows
how tokens are scored. `findTokenStart` and `findTokenEnd` extend a token over
every letter and digit, so `CategoryHelper` is a single token. The match of `cat`
qualifies because it follows a space. The match of `help` qualifies because it
starts with a capital. Both lie in the same token, so the row scores 2 for the
two qualifying words plus a shared-token bonus of 2 - 1, a weight of 3.
`Tokens.CamelCaseIsOneToken` proves that both matches qualify and share the
token, and `Scoring.CamelCaseWeight` proves that the weight is 3.

## Model

Every source cell is in `src/main/kotlin/com/github/cvzakharchenko/swiper/actions/LinePickerAction.kt`.

| member | source | states |
|---|---|---|
| KotlinText.Lower | src/main/kotlin/com/github/cvzakharchenko/swiper/actions/LinePickerAction.kt:258 | lowercasing keeps the length and maps every character through the ASCII lowercase mapping |
| KotlinText.LowerIsLowerCase | src/main/kotlin/com/github/cvzakharchenko/swiper/actions/LinePickerAction.kt:258 | a lowercased string has no upper-case letter |
| KotlinText.LowerConcat | src/main/kotlin/com/github/cvzakharchenko/swiper/actions/LinePickerAction.kt:258 | lowercasing distributes over concatenation |
| KotlinText.Trim | src/main/kotlin/com/github/cvzakharchenko/swiper/actions/LinePickerAction.kt:233 | the trimmed text is empty exactly when the text is blank, and it starts and ends with non-whitespace otherwise |
| KotlinText.TrimParts | src/main/kotlin/com/github/cvzakharchenko/swiper/actions/LinePickerAction.kt:233 | the text is a blank prefix, then its trimmed text, then a blank suffix |
| KotlinText.TrimOfTrimmed | src/main/kotlin/com/github/cvzakharchenko/swiper/actions/LinePickerAction.kt:233 | trimming a text that starts and ends with non-whitespace changes nothing |
| KotlinText.IndexOf | src/main/kotlin/com/github/cvzakharchenko/swiper/actions/LinePickerAction.kt:680-684 | a found index is at or after the start position and the word occurs there |
| KotlinText.IndexOfIsFirst | src/main/kotlin/com/github/cvzakharchenko/swiper/actions/LinePickerAction.kt:680-684 | no occurrence lies between the start position and the found index, and none lies after the start when nothing is found |
| KotlinText.IndexOfFindsContained | src/main/kotlin/com/github/cvzakharchenko/swiper/actions/LinePickerAction.kt:263 | searching from 0 finds the word exactly when the text contains it |
| Normalizer.NormalizeLineText | src/main/kotlin/com/github/cvzakharchenko/swiper/actions/LinePickerAction.kt:232-236 | a blank line becomes the empty-line placeholder |
| Normalizer.ExpandTrimmed | src/main/kotlin/com/github/cvzakharchenko/swiper/actions/LinePickerAction.kt:233-237 | the trimmed, tab-expanded text of a non-blank line is non-empty, has no tab, starts and ends with non-whitespace, and grows by three characters per tab |
| Normalizer.NormalizeShortLine | src/main/kotlin/com/github/cvzakharchenko/swiper/actions/LinePickerAction.kt:232-239 | a non-blank line that fits in 120 characters once expanded becomes exactly its trimmed text with tabs expanded |
| Normalizer.TrimmedLineIsNormal | src/main/kotlin/com/github/cvzakharchenko/swiper/actions/LinePickerAction.kt:232-239 | a tab-free text of at most 120 characters with non-whitespace ends is left as it is |
| Normalizer.PlaceholderIsNormal | src/main/kotlin/com/github/cvzakharchenko/swiper/actions/LinePickerAction.kt:234-235 | normalising the placeholder gives the placeholder |
| Normalizer.NormalizeIdempotent | src/main/kotlin/com/github/cvzakharchenko/swiper/actions/LinePickerAction.kt:232-239 | normalising a normalised line changes nothing |
| Tokenizer.ParseSearchWords | src/main/kotlin/com/github/cvzakharchenko/swiper/actions/LinePickerAction.kt:365-372 | a missing or blank query gives no words, and every word is non-blank, free of regex whitespace and lower case |
| Tokenizer.Split | src/main/kotlin/com/github/cvzakharchenko/swiper/actions/LinePickerAction.kt:367 | (definition) the pieces of the text between maximal runs of regex whitespace, as `split` returns them; its facts are the next two rows |
| Tokenizer.SplitPiecesSpaceFree | src/main/kotlin/com/github/cvzakharchenko/swiper/actions/LinePickerAction.kt:367 | no piece of a whitespace split holds regex whitespace |
| Tokenizer.SplitKeepsText | src/main/kotlin/com/github/cvzakharchenko/swiper/actions/LinePickerAction.kt:367 | the pieces of a whitespace split, joined, are the text with its regex whitespace removed |
| Tokenizer.ParseKeepsQueryText | src/main/kotlin/com/github/cvzakharchenko/swiper/actions/LinePickerAction.kt:365-372 | for a query holding none of the non-regex whitespace characters 28-31, the words joined are the lowercased query with its whitespace removed: no character is lost, added or reordered |
| Tokenizer.NonBlank | src/main/kotlin/com/github/cvzakharchenko/swiper/actions/LinePickerAction.kt:369 | every kept piece is non-blank and is one of the input pieces, and a piece is kept exactly when it is in the input and not blank |
| Tokenizer.NonBlankConcat | src/main/kotlin/com/github/cvzakharchenko/swiper/actions/LinePickerAction.kt:369 | filtering a concatenation is the concatenation of the filtered parts, so order is kept |
| Tokenizer.NonBlankOne | src/main/kotlin/com/github/cvzakharchenko/swiper/actions/LinePickerAction.kt:369 | a single piece is kept exactly when it is not blank |
| Tokenizer.NonBlankKeepsText | src/main/kotlin/com/github/cvzakharchenko/swiper/actions/LinePickerAction.kt:369 | dropping blank pieces loses no text when no piece is made only of separator characters |
| Tokenizer.NormalizeWords | src/main/kotlin/com/github/cvzakharchenko/swiper/actions/LinePickerAction.kt:458 | every cleaned word is non-empty, non-blank and lower case |
| Tokenizer.NormalizeParsedWords | src/main/kotlin/com/github/cvzakharchenko/swiper/actions/LinePickerAction.kt:458 | cleaning the words of a parsed query changes nothing |
| Tokens.TokenStart | src/main/kotlin/com/github/cvzakharchenko/swiper/actions/LinePickerAction.kt:738-744 | the token start is at or before the index, only letters and digits lie between them, and the character before it is not a letter or digit |
| Tokens.TokenStartUnique | src/main/kotlin/com/github/cvzakharchenko/swiper/actions/LinePickerAction.kt:738-744 | any position with those properties is the token start |
| Tokens.FindTokenStart | src/main/kotlin/com/github/cvzakharchenko/swiper/actions/LinePickerAction.kt:738-744 | the backwards scan returns the token start |
| Tokens.TokenEnd | src/main/kotlin/com/github/cvzakharchenko/swiper/actions/LinePickerAction.kt:746-752 | the token end is at or after the index, only letters and digits lie between them, and it is the text end or a non-alphanumeric character |
| Tokens.TokenEndUnique | src/main/kotlin/com/github/cvzakharchenko/swiper/actions/LinePickerAction.kt:746-752 | any position with those properties is the token end |
| Tokens.FindTokenEnd | src/main/kotlin/com/github/cvzakharchenko/swiper/actions/LinePickerAction.kt:746-752 | the forward scan returns the token end |
| Tokens.CreateMatchInfo | src/main/kotlin/com/github/cvzakharchenko/swiper/actions/LinePickerAction.kt:722-736 | the clamped span lies inside the text, and the token range starts at or before the span and is not empty |
| Tokens.CreateMatchInfoInText | src/main/kotlin/com/github/cvzakharchenko/swiper/actions/LinePickerAction.kt:722-736 | for a start inside the text: the span starts there, ends at the start plus the length or at the text end, and qualifies exactly at a word boundary or a capital letter |
| Tokens.CreateMatchInfoToken | src/main/kotlin/com/github/cvzakharchenko/swiper/actions/LinePickerAction.kt:725-729 | the token range is the maximal run of letters and digits around the span |
| Tokens.CamelCaseIsOneToken | src/main/kotlin/com/github/cvzakharchenko/swiper/actions/LinePickerAction.kt:722-736 | in the example line, the matches of cat and help both qualify and have the same token range, the whole identifier |
| Tokens.InfosFrom | src/main/kotlin/com/github/cvzakharchenko/swiper/actions/LinePickerAction.kt:711-720 | (definition) the infos from one found index on: none at a miss or past the text end, otherwise the info there and then those from the next occurrence one word length on |
| Tokens.MatchInfos | src/main/kotlin/com/github/cvzakharchenko/swiper/actions/LinePickerAction.kt:711-720 | (definition) the infos of a word, starting from its first occurrence; its facts are in the next two rows |
| Tokens.MatchInfosFacts | src/main/kotlin/com/github/cvzakharchenko/swiper/actions/LinePickerAction.kt:711-720 | an empty word or text gives no infos; every info is at an occurrence of the word, later infos start at least one word length further on, and each is the createMatchInfo of its start |
| Tokens.MatchInfosAreWordRanges | src/main/kotlin/com/github/cvzakharchenko/swiper/actions/LinePickerAction.kt:711-720 | the infos of a word start exactly where the highlight scan finds that word, one for one and in order |
| Tokens.CollectMatchInfos | src/main/kotlin/com/github/cvzakharchenko/swiper/actions/LinePickerAction.kt:711-720 | the indexOf loop returns the infos of the word: each at an occurrence inside the text, qualifying as the boundary rule says |
| Highlight.WordRanges | src/main/kotlin/com/github/cvzakharchenko/swiper/actions/LinePickerAction.kt:680-685 | each hit starts at or after the search position, spans the word length and lies inside the text |
| Highlight.WordRangesOccur | src/main/kotlin/com/github/cvzakharchenko/swiper/actions/LinePickerAction.kt:680-685 | the word occurs at the start of every hit |
| Highlight.WordRangesEmpty | src/main/kotlin/com/github/cvzakharchenko/swiper/actions/LinePickerAction.kt:680-681 | the scan finds nothing exactly when indexOf finds nothing |
| Highlight.ScanRanges | src/main/kotlin/com/github/cvzakharchenko/swiper/actions/LinePickerAction.kt:679-687 | the ranges of the scan of all words lie inside the text; their meaning is in the next two rows |
| Highlight.ScanRangesEmpty | src/main/kotlin/com/github/cvzakharchenko/swiper/actions/LinePickerAction.kt:679-687 | the scan of all words is empty exactly when no word occurs |
| Highlight.ScanRangesAreHits | src/main/kotlin/com/github/cvzakharchenko/swiper/actions/LinePickerAction.kt:679-686 | every scanned range is an occurrence of some word, spanning that word |
| Highlight.ScanWord | src/main/kotlin/com/github/cvzakharchenko/swiper/actions/LinePickerAction.kt:680-685 | the search loop for one word appends exactly the hits of that word |
| Highlight.ScanWords | src/main/kotlin/com/github/cvzakharchenko/swiper/actions/LinePickerAction.kt:679-686 | the loop over the words collects the hits of all words, word by word |
| Highlight.SortByFirst | src/main/kotlin/com/github/cvzakharchenko/swiper/actions/LinePickerAction.kt:688 | the result is sorted by the range start |
| Highlight.SortPermutation | src/main/kotlin/com/github/cvzakharchenko/swiper/actions/LinePickerAction.kt:688 | sorting is a permutation of the ranges |
| Highlight.SortBySameElements | src/main/kotlin/com/github/cvzakharchenko/swiper/actions/LinePickerAction.kt:688 | sorting keeps exactly the same ranges |
| Highlight.MergeFacts | src/main/kotlin/com/github/cvzakharchenko/swiper/actions/LinePickerAction.kt:689-701 | the merged ranges are separated by at least one uncovered position and stay inside the text; every input range lies inside one merged range; a position covered by the merge is covered by an input range |
| Highlight.MergeSorted | src/main/kotlin/com/github/cvzakharchenko/swiper/actions/LinePickerAction.kt:689-701 | the merge loop computes the merge of the sorted ranges |
| Highlight.Merge | src/main/kotlin/com/github/cvzakharchenko/swiper/actions/LinePickerAction.kt:689-701 | (definition) the one-pass merge of sorted ranges, joining a range that overlaps or touches the current one; its facts are in `Highlight.MergeFacts` |
| Highlight.SeparatedAscending | src/main/kotlin/com/github/cvzakharchenko/swiper/actions/LinePickerAction.kt:689-701 | separated ranges inside the text are in ascending order |
| Highlight.HighlightRanges | src/main/kotlin/com/github/cvzakharchenko/swiper/actions/LinePickerAction.kt:676-702 | (definition) no ranges for an empty text or an empty scan, otherwise the merge of the sorted scan; its facts are in the next row |
| Highlight.HighlightRangesFacts | src/main/kotlin/com/github/cvzakharchenko/swiper/actions/LinePickerAction.kt:676-702 | the highlight ranges are separated and inside the text; they contain every range the scan finds and cover nothing else; there are none exactly when the text is empty or no word occurs |
| Highlight.WordRangesCoverOccurrences | src/main/kotlin/com/github/cvzakharchenko/swiper/actions/LinePickerAction.kt:680-685 | the first character of every occurrence of the word at or after the search position lies in a hit |
| Highlight.ScanCoversOccurrences | src/main/kotlin/com/github/cvzakharchenko/swiper/actions/LinePickerAction.kt:679-686 | the first character of every occurrence of any word lies in a scanned range |
| Highlight.HighlightCoversOccurrences | src/main/kotlin/com/github/cvzakharchenko/swiper/actions/LinePickerAction.kt:676-702 | the first character of every occurrence of every word is highlighted; an occurrence that overlaps an earlier hit of the scan is covered only where it overlaps |
| Highlight.CollectMatchesInText | src/main/kotlin/com/github/cvzakharchenko/swiper/actions/LinePickerAction.kt:676-702 | the method returns the highlight ranges, with all of the facts above and the following one |
| Highlight.FirstHighlightIsLeast | src/main/kotlin/com/github/cvzakharchenko/swiper/actions/LinePickerAction.kt:688-700 | the first highlight range starts where the earliest scanned range starts |
| Highlight.FirstHighlightIsEarliest | src/main/kotlin/com/github/cvzakharchenko/swiper/actions/LinePickerAction.kt:676-702 | the first highlight range starts at an occurrence of some word, and no word occurs before it |
| Scoring.Distinct | src/main/kotlin/com/github/cvzakharchenko/swiper/actions/LinePickerAction.kt:267 | the distinct words have no repeats and are exactly the words of the query |
| Scoring.DistinctOfNoDuplicates | src/main/kotlin/com/github/cvzakharchenko/swiper/actions/LinePickerAction.kt:267 | a list without repeats is its own distinct list |
| Scoring.DistinctIdempotent | src/main/kotlin/com/github/cvzakharchenko/swiper/actions/LinePickerAction.kt:267 | taking the distinct words twice is taking them once |
| Scoring.QualTokensEmpty | src/main/kotlin/com/github/cvzakharchenko/swiper/actions/LinePickerAction.kt:758-759 | a word has no qualifying token exactly when none of its matches qualifies |
| Scoring.CommonMembers | src/main/kotlin/com/github/cvzakharchenko/swiper/actions/LinePickerAction.kt:756-762 | a token is in the running intersection exactly when every word has a qualifying match in it |
| Scoring.SharedBonus | src/main/kotlin/com/github/cvzakharchenko/swiper/actions/LinePickerAction.kt:754-764 | (definition) 0 for fewer than two words or when no token is common to all words, otherwise the word count minus one; its meaning is the next row |
| Scoring.SharedBonusMeaning | src/main/kotlin/com/github/cvzakharchenko/swiper/actions/LinePickerAction.kt:754-764 | the bonus is the word count minus one exactly when there are at least two words and one token holds a qualifying match of each, and 0 otherwise |
| Scoring.SharedTokenBonus | src/main/kotlin/com/github/cvzakharchenko/swiper/actions/LinePickerAction.kt:754-764 | the intersection loop, with its early exits, returns that bonus |
| Scoring.Groups | src/main/kotlin/com/github/cvzakharchenko/swiper/actions/LinePickerAction.kt:268-271 | (definition) the match infos of each distinct word, one list per word in the order of the words |
| Scoring.BaseScore | src/main/kotlin/com/github/cvzakharchenko/swiper/actions/LinePickerAction.kt:272-274 | (definition) the number of words whose match list holds a qualifying match; its bounds are the next row |
| Scoring.BaseScoreBounds | src/main/kotlin/com/github/cvzakharchenko/swiper/actions/LinePickerAction.kt:272-274 | the base score is at most the number of distinct words, and equals it exactly when every word has a qualifying match |
| Scoring.ComputeWeight | src/main/kotlin/com/github/cvzakharchenko/swiper/actions/LinePickerAction.kt:265-266 | no words weigh 0 |
| Scoring.WeightDecomposition | src/main/kotlin/com/github/cvzakharchenko/swiper/actions/LinePickerAction.kt:265-278 | the weight is the number of distinct words with a qualifying match, plus the word count minus one exactly when there are two or more distinct words sharing a token |
| Scoring.WeightBounds | src/main/kotlin/com/github/cvzakharchenko/swiper/actions/LinePickerAction.kt:265-278 | with d distinct words the weight is never negative and is either at most d or exactly 2d - 1 |
| Scoring.WeightOfDistinct | src/main/kotlin/com/github/cvzakharchenko/swiper/actions/LinePickerAction.kt:267 | repeated query words do not change the weight |
| Scoring.SoleMatchInfo | src/main/kotlin/com/github/cvzakharchenko/swiper/actions/LinePickerAction.kt:711-720 | a word whose first letter appears only once in the lowercased text, where the word occurs, has exactly one match info, made at that position |
| Scoring.SharedTokenWeight | src/main/kotlin/com/github/cvzakharchenko/swiper/actions/LinePickerAction.kt:265-278 | two different words with one qualifying match each, both in the same token, give a weight of 3 |
| Scoring.CamelCaseWeight | src/main/kotlin/com/github/cvzakharchenko/swiper/actions/LinePickerAction.kt:265-278 | in the example line the query cat help has weight 3 |
| Ranker.BuildLines | src/main/kotlin/com/github/cvzakharchenko/swiper/actions/LinePickerAction.kt:92-100 | one row per document line, numbered 0, 1, 2, ... in order, holding the normalised line |
| Ranker.NumberedIncreasing | src/main/kotlin/com/github/cvzakharchenko/swiper/actions/LinePickerAction.kt:92-100 | numbered rows are in increasing line order and no line number repeats |
| Scoring.Matches | src/main/kotlin/com/github/cvzakharchenko/swiper/actions/LinePickerAction.kt:262-263 | (definition) a row matches when its lowercased text contains every word; used by `Ranker.Filter` |
| Ranker.Filter | src/main/kotlin/com/github/cvzakharchenko/swiper/actions/LinePickerAction.kt:308 | a row is kept exactly when it is a source row that contains every word, no row is added, and line order is kept |
| Ranker.FilterNoWords | src/main/kotlin/com/github/cvzakharchenko/swiper/actions/LinePickerAction.kt:308 | with no words every row is kept |
| Ranker.PrecedesTransitive | src/main/kotlin/com/github/cvzakharchenko/swiper/actions/LinePickerAction.kt:312-315 | the ranking order (higher weight first, then lower line number) is transitive |
| Ranker.PrecedesTotal | src/main/kotlin/com/github/cvzakharchenko/swiper/actions/LinePickerAction.kt:312-315 | any two rows are comparable in the ranking order |
| Ranker.InsertRanked | src/main/kotlin/com/github/cvzakharchenko/swiper/actions/LinePickerAction.kt:312-315 | inserting into a ranked list keeps it ranked and adds exactly the one row |
| Ranker.SortByRank | src/main/kotlin/com/github/cvzakharchenko/swiper/actions/LinePickerAction.kt:312-315 | the sorted list is ranked and is a permutation of its input |
| Ranker.RankedUnique | src/main/kotlin/com/github/cvzakharchenko/swiper/actions/LinePickerAction.kt:312-315 | two ranked permutations of rows with distinct line numbers are equal |
| Ranker.Arrange | src/main/kotlin/com/github/cvzakharchenko/swiper/actions/LinePickerAction.kt:307-316 | (definition) all source rows with no words, otherwise the matching rows sorted by rank; its facts are the next three rows |
| Ranker.ArrangeFacts | src/main/kotlin/com/github/cvzakharchenko/swiper/actions/LinePickerAction.kt:307-316 | the shown rows are the source rows when there are no words; otherwise exactly the source rows that contain every word, ranked by weight and then line number |
| Ranker.ArrangeUnique | src/main/kotlin/com/github/cvzakharchenko/swiper/actions/LinePickerAction.kt:307-316 | no line number repeats among the shown rows |
| Ranker.ArrangeIsTheRanking | src/main/kotlin/com/github/cvzakharchenko/swiper/actions/LinePickerAction.kt:309-316 | any ranked permutation of the filtered rows is the shown list, so the result does not depend on the sorting algorithm |
| Ranker.IndexOfLine | src/main/kotlin/com/github/cvzakharchenko/swiper/actions/LinePickerAction.kt:324 | the first index of a row on the line, or -1 when there is none |
| Ranker.IndexOfNumbered | src/main/kotlin/com/github/cvzakharchenko/swiper/actions/LinePickerAction.kt:324 | in the full row list, the caret line's row is at its own index |
| Ranker.TargetIndex | src/main/kotlin/com/github/cvzakharchenko/swiper/actions/LinePickerAction.kt:318-328 | -1 exactly for an empty list; otherwise 0 when there are words; with no words, the index of the caret line's row when it is shown and 0 when it is not |
| Ranker.SelectionOnCaret | src/main/kotlin/com/github/cvzakharchenko/swiper/actions/LinePickerAction.kt:323-325 | with no words, the caret line is selected |
| Ranker.SelectionOnBest | src/main/kotlin/com/github/cvzakharchenko/swiper/actions/LinePickerAction.kt:326-327 | with words, the first row is selected and no shown row weighs more |
| Ranker.Step | src/main/kotlin/com/github/cvzakharchenko/swiper/actions/LinePickerAction.kt:450-451 | the moved selection is a valid index |
| Ranker.StepMeaning | src/main/kotlin/com/github/cvzakharchenko/swiper/actions/LinePickerAction.kt:450-451 | the selection moves by delta, clamped to the first or last row |
| Ranker.StepDownUp | src/main/kotlin/com/github/cvzakharchenko/swiper/actions/LinePickerAction.kt:447-454 | a move down then up, away from the last row, returns to the same row |
| Ranker.StepsAdd | src/main/kotlin/com/github/cvzakharchenko/swiper/actions/LinePickerAction.kt:447-454 | two moves in the same direction are one move by their sum |
| Ranker.LinePicker.constructor | src/main/kotlin/com/github/cvzakharchenko/swiper/actions/LinePickerAction.kt:92-211 | opening the popup builds the rows, shows them all with no words, selects by the caret line, and establishes the state invariant |
| Ranker.LinePicker.ApplyFilter | src/main/kotlin/com/github/cvzakharchenko/swiper/actions/LinePickerAction.kt:296-333 | the words are the parsed query, the list shows the arranged rows, the selection is the target index, and the rows and words are returned |
| Ranker.LinePicker.TextChanged | src/main/kotlin/com/github/cvzakharchenko/swiper/actions/LinePickerAction.kt:138-155 | after an edit the state invariant holds, and the current words and rows are those of the parsed query |
| Ranker.LinePicker.MoveSelection | src/main/kotlin/com/github/cvzakharchenko/swiper/actions/LinePickerAction.kt:447-454 | an empty list keeps its selection; otherwise the selection moves as Step says; nothing else changes and the invariant holds |
| Render.SegmentsFrom | src/main/kotlin/com/github/cvzakharchenko/swiper/actions/LinePickerAction.kt:506-516 | (definition) the fragments from a position on: the plain gap before each range, the range in bold, then the plain rest; its facts are the next three rows |
| Render.SegmentsSpellText | src/main/kotlin/com/github/cvzakharchenko/swiper/actions/LinePickerAction.kt:506-516 | the fragments spell out the row text |
| Render.SegmentsBoldTexts | src/main/kotlin/com/github/cvzakharchenko/swiper/actions/LinePickerAction.kt:506-516 | the bold fragments are the texts of the highlight ranges, in order |
| Render.SegmentsBoldWhereCovered | src/main/kotlin/com/github/cvzakharchenko/swiper/actions/LinePickerAction.kt:506-516 | a character is bold exactly when a highlight range covers it |
| Render.AppendSegments | src/main/kotlin/com/github/cvzakharchenko/swiper/actions/LinePickerAction.kt:506-516 | the segment loop appends the gap, the bold range and the trailing rest as described |
| Render.RowHighlight | src/main/kotlin/com/github/cvzakharchenko/swiper/actions/LinePickerAction.kt:494-504 | the row's highlight ranges lie inside the text and are separated |
| Render.CustomizeCellRenderer | src/main/kotlin/com/github/cvzakharchenko/swiper/actions/LinePickerAction.kt:492-517 | a missing row appends nothing; otherwise the fragments spell the row text, a character is bold exactly when a highlight range covers it, and the bold fragments are the highlighted texts |
| Preview.LinesInOrder | src/main/kotlin/com/github/cvzakharchenko/swiper/actions/LinePickerAction.kt:664-665 | an earlier line ends before a later line starts |
| Preview.ToOffsets | src/main/kotlin/com/github/cvzakharchenko/swiper/actions/LinePickerAction.kt:668-673 | one offset range per highlight range |
| Preview.OffsetsFacts | src/main/kotlin/com/github/cvzakharchenko/swiper/actions/LinePickerAction.kt:668-673 | the offset ranges are the highlight ranges shifted by the line start, lie inside the line, and keep their order and gaps |
| Preview.NoMatchIffNoWord | src/main/kotlin/com/github/cvzakharchenko/swiper/actions/LinePickerAction.kt:667-687 | a line has no highlight range exactly when no word occurs in it |
| Preview.CollectLineMatchRanges | src/main/kotlin/com/github/cvzakharchenko/swiper/actions/LinePickerAction.kt:663 | a line outside the document has no match ranges |
| Preview.LineMatchRangesFacts | src/main/kotlin/com/github/cvzakharchenko/swiper/actions/LinePickerAction.kt:658-674 | a line's match ranges are its highlight ranges shifted to document offsets, inside the line, ordered with gaps, and absent exactly when no word occurs in the line |
| Preview.FirstNonWhitespace | src/main/kotlin/com/github/cvzakharchenko/swiper/actions/LinePickerAction.kt:471 | the first non-whitespace index, with only whitespace before it; -1 exactly for a blank line |
| Preview.WordLength | src/main/kotlin/com/github/cvzakharchenko/swiper/actions/LinePickerAction.kt:473-475 | the length of the leading run of non-whitespace |
| Preview.TargetWithoutMatch | src/main/kotlin/com/github/cvzakharchenko/swiper/actions/LinePickerAction.kt:468-479 | the fallback target is on the line, at a non-negative column, at least one column long |
| Preview.FindPreviewTarget | src/main/kotlin/com/github/cvzakharchenko/swiper/actions/LinePickerAction.kt:456-480 | a line outside the document gives column 0 and length 0; otherwise a non-negative column and a length of at least one |
| Preview.PreviewAtFirstMatch | src/main/kotlin/com/github/cvzakharchenko/swiper/actions/LinePickerAction.kt:459-466 | when a cleaned word occurs in the line, the target is the first highlight range and lies inside the line |
| Preview.PreviewColumnIsEarliest | src/main/kotlin/com/github/cvzakharchenko/swiper/actions/LinePickerAction.kt:458-466 | the target column is an occurrence of a cleaned word, and no cleaned word occurs earlier in the line |
| Preview.PreviewWithoutMatch | src/main/kotlin/com/github/cvzakharchenko/swiper/actions/LinePickerAction.kt:460-479 | when no cleaned word occurs, the target is the fallback target |
| Preview.FirstWordTarget | src/main/kotlin/com/github/cvzakharchenko/swiper/actions/LinePickerAction.kt:471-477 | on a non-blank line the fallback selects the first run of non-whitespace, bounded by whitespace or the line end |
| Preview.PreviewAtFirstWord | src/main/kotlin/com/github/cvzakharchenko/swiper/actions/LinePickerAction.kt:468-477 | a non-blank line without a match previews its first run of non-whitespace |
| Preview.BlankLineHasNoWord | src/main/kotlin/com/github/cvzakharchenko/swiper/actions/LinePickerAction.kt:458-459 | no cleaned word occurs in a blank line |
| Preview.PreviewOfBlankLine | src/main/kotlin/com/github/cvzakharchenko/swiper/actions/LinePickerAction.kt:479 | a blank line previews from column 0 over the whole line, at least one column |

## Left out

- The user interface is not part of this model: building the popup, the list
  model, the scroll pane, popup sizing, the Alt+F blocker, key handling, and
  choosing a row to jump to. The single-open-popup guard and the search
  highlighter in the editor are left out too. They draw and route events; the
  search logic they call is modelled.
- The editor side effects of the preview and of jumping to a line are left out:
  moving the caret, scrolling, and the preview controller.
  `findPreviewTarget` computes the target they consume, and it is modelled.
- The selection listener's call of `findPreviewTarget` is not modelled as a state
  change. `Preview.FindPreviewTarget` models the call itself.
- `StringUtil.shortenTextWithEllipsis` is library code and is not part of this
  model. It is a parameter `shorten`. The lemmas assume only that
  `shorten` returns a text of at most 120 characters unchanged.
- The empty-line resource-bundle message is a constant placeholder.
- Characters are classified as ASCII. Unicode letters, digits, case mapping and
  whitespace beyond ASCII are not modelled.
- Normalizer.NormalizeShortLine: proved only for lines of at most 120 characters
  once trimmed and expanded, because `shorten` is unspecified for longer text.
- Normalizer.NormalizeIdempotent: proved only for blank lines and for lines that
  fit in 120 characters, for the same reason.
- Highlight.CollectMatchesInText: requires every word to be non-empty. With an
  empty word the source loop would not end, because `indexOf("")` answers the
  position it is given. Every caller passes only non-blank words.
- Preview.CollectLineMatchRanges: requires non-empty words, for the same reason.
- Highlight.SortByFirst: `sortedBy` is modelled as an insertion sort. Only
  sortedness and permutation are proved, not stability. Ranges with equal starts
  merge the same way in any order, and `Highlight.MergeFacts` holds for every
  sorted permutation.
- Ranker.SortByRank: `sortedWith` is modelled as an insertion sort. Rows have
  distinct line numbers, so `Ranker.ArrangeIsTheRanking` shows that any correct
  sort gives the same list.
- The Kotlin `Map` built by `associateWith` is modelled as the list of match lists
  in distinct-word order. `sharedTokenBonus` visits its values in that order, and
  its result does not depend on the order.
- Integers are unbounded. Offsets and scores in the source are 32-bit, but no
  realistic document comes near the limit.
