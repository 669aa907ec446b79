# Word frequency analyzer — a Dafny model

This project models the analysis core of the browser word-frequency analyzer
(`main.js`). That core has three parts:

- **The text pipeline of `analyzeText`.** It optionally lowercases the text and
  replaces punctuation with spaces. It splits the text into base tokens on
  white-space runs. Then, when `ignoreNumbers` is set, it drops all-digit
  tokens, and it drops the custom-excluded words.
  A word path then skips short tokens, counts and skips stopwords, and
  counts the remaining words in a `Map`. A phrase path (`buildPhrases`)
  counts the bigrams or trigrams of the base tokens. Both counted lists are
  ranked by a stable sort on decreasing count.
- **The blank-text shortcut of `handleAnalysis`** and the "most frequent
  word" statistic.
- **The two paged, filterable result tables.** `renderTable` and
  `updatePagination` draw them. The filter, page-size, prev and next
  handlers change their state, and `updateUI` resets them.

Modules, one per file:

| file | module | part of the program |
|---|---|---|
| TextClasses.dfy | `TextClasses` | the Unicode classes `\p{L}`, `\p{N}`, `\s` and `toLowerCase`, left abstract |
| Seqs.dfy | `Seqs` | `Array.prototype.filter` |
| Strings.dfy | `Strings` | `split`, `join`, `split(/\s+/).filter(Boolean)`, `trim`, `includes` |
| Tokenizer.dfy | `Tokenizer` | normalisation and base tokens (first half of `analyzeText`) |
| Frequencies.dfy | `Frequencies` | the counting `Map`, its records, and the stable ranking sort |
| WordPath.dfy | `WordPath` | the word loop of `analyzeText` |
| Phrases.dfy | `Phrases` | `buildPhrases` |
| Analysis.dfy | `Analysis` | `analyzeText` as a whole, the blank-text shortcut, the most frequent word |
| ResultView.dfy | `ResultView` | `renderTable`, `updatePagination`, the table handlers, one table's reset |
| Display.dfy | `Display` | `updateUI` loading one result into both tables |

The pure parts of the program are written as functions. The loops are
methods proved against those functions:

- the word loop is `WordPath.CountWords`;
- the phrase loop is `Phrases.BuildPhrases`;
- the row loop is `ResultView.PageRowsOf`.

The page state that the program keeps in globals and form fields lives in
a class, `ResultView.View`. There is one object per table, and its methods
are the handlers.

A JavaScript `Map` is modelled by two values: the sequence of its keys in
insertion order, and a `map` from key to count. Their specification is
`Frequencies.Distinct` (first-occurrence order) and `Frequencies.CountMap`.
`Array.prototype.sort` must be stable under ECMAScript. It is modelled as a
stable insertion sort on decreasing count, `Frequencies.SortByCount`.

## Model

| member | source | states |
|---|---|---|
| Seqs.Filter | main.js:129-141 | `Array.prototype.filter`, as the number and exclude filters use it (and the table filter at main.js:229): the kept elements are exactly the elements of the input that pass the test, and there are no more of them than in the input |
| Seqs.FilterAppend | main.js:130 | filtering a concatenation is the concatenation of the filtered parts, so kept elements stay in their original order |
| Seqs.FilterCount | main.js:130 | filtering keeps every copy of a passing element and drops every copy of a failing one |
| Strings.Join | main.js:103 | `pieces.join(sep)`; its partners are `JoinSplit`, `SplitJoin` and `WordsOfJoin` |
| Strings.Split | main.js:136 | `split(',')` gives at least one piece, and no piece contains the separator |
| Strings.JoinSplit | main.js:136 | joining the pieces of `split(sep)` with `sep` gives back the original string |
| Strings.SplitJoin | main.js:136 | splitting a join of separator-free pieces gives back those pieces |
| Strings.Words | main.js:126 | every token of `split(/\s+/).filter(Boolean)` is non-empty and free of white space, and its characters come from the text; `WordsSplitAt`, `WordsOfBlank`, `WordsOfJoin` and `WordsVisible` fix the tokens as the maximal white-space-free runs |
| Strings.WordsVisible | main.js:126 | the tokens put back together are exactly the text's non-white-space characters, in order, so only white space is dropped |
| Strings.WordsOfBlank | main.js:126 | a text made only of white space has no tokens |
| Strings.WordsOfJoin | main.js:103 | splitting tokens joined by single spaces gives back the same tokens; in particular one token is its own only word |
| Strings.WordsSplitAt | main.js:126 | any white-space character ends a token: the words of `a`, a white-space character, then `b` are the words of `a` followed by those of `b`; with `WordsOfBlank` and the one-token case of `WordsOfJoin` this fixes every token boundary |
| Strings.RunLengthAt | main.js:126 | the first token runs exactly up to the first white-space character |
| Strings.TrimStart | main.js:137 | what is removed at the front is all white space, and the rest does not start with white space |
| Strings.TrimEnd | main.js:137 | what is removed at the back is all white space, and the rest does not end with white space |
| Strings.Trim | main.js:137 | the result is the slice of the string after the leading white-space run with only white space after it; it neither starts nor ends with white space, and it is empty exactly when the string is blank |
| Strings.TrimBothEnds | main.js:137 | trimming both ends is trimming the start and then the end |
| Strings.Contains | main.js:232 | `s.includes(needle)`; `ContainsAt` and `ContainsOffset` prove it holds exactly when the needle occurs at some offset |
| Strings.ContainsAt | main.js:232 | `includes` holds when the needle occurs at some offset |
| Strings.ContainsOffset | main.js:232 | when `includes` holds, the needle occurs at some offset |
| Strings.Utf16Length | main.js:150 | `tok.length` counts UTF-16 code units: at least one and at most two per character |
| Strings.Utf16LengthBmp | main.js:150 | for text inside the Basic Multilingual Plane, `length` is the number of characters |
| Strings.Utf16LengthOne | main.js:150 | one character has length 1 below U+10000 and 2 (a surrogate pair, as for an emoji) from there up |
| Strings.Utf16LengthAppend | main.js:150 | the length of a concatenation is the sum of the lengths |
| Tokenizer.StripPunctuation | main.js:120-123 | the length is unchanged; letters, numbers and white space are kept; every other character becomes a space |
| Tokenizer.Kept | main.js:122 | the characters `[\p{L}\p{N}\s]` that stripping leaves alone: letters, numbers and white space |
| Tokenizer.Normalize | main.js:112-123 | after stripping, every character is a letter, a number or white space; with neither step enabled the text is unchanged |
| Analysis.NormalizeBlank | main.js:112-123 | a blank text stays blank through lowercasing and punctuation stripping |
| Tokenizer.AllDigits | main.js:130 | `/^\d+$/`: a non-empty string of ASCII digits |
| Tokenizer.ExcludeSet | main.js:134-139 | the exclude set never holds the empty string, and each member is a trimmed, lowercased comma-separated entry |
| Tokenizer.ExcludeListed | main.js:134-139 | every entry of a comma-joined list that is not blank after trim and lowercase is in the exclude set |
| Tokenizer.DropNumbers | main.js:129-131 | with `ignoreNumbers`, exactly the all-ASCII-digit tokens are removed, with every copy of the rest kept; otherwise nothing is removed |
| Tokenizer.DropExcluded | main.js:140-142 | exactly the tokens whose lowercase form is excluded are removed, with every copy of the rest kept |
| Tokenizer.BaseTokens | main.js:111-142 | every base token is a non-empty, white-space-free token of the normalised text, not all digits under `ignoreNumbers`, not excluded; each such token keeps its number of occurrences |
| Tokenizer.StrippedTokens | main.js:120-126 | with punctuation stripped, every character of every base token is a letter or a number |
| Frequencies.Distinct | main.js:160 | the `Map` keys are exactly the elements, each listed once |
| Frequencies.CountMap | main.js:160 | the counts of the `Map` that the `map.set` increments fill (here and at main.js:104): each element maps to its number of occurrences; `CountsAreCountMap` ties the loops' `map` to it |
| Frequencies.CountsSnoc | main.js:160 | one increment of `x` in the `Map` keeps the map counting occurrences, and appends `x` to the key order only when it is new |
| Frequencies.AddOccurrence | main.js:160 | the map update keeps the key order equal to first-occurrence order and the counts equal to occurrence counts |
| Frequencies.RankCounts | main.js:163-165 | the records of a counting `Map`, sorted, are the ranked records of the counted elements |
| Frequencies.Entries | main.js:163-164 | `Array.from(map.entries()).map(...)`: one record per key, in key order, with the key's count |
| Frequencies.Ranked | main.js:163-165 | the ranked records of a counted sequence; `RankedFacts` and `TiesInFirstOccurrenceOrder` state their properties |
| Frequencies.Tally | main.js:163-164 | there is one record per distinct element, in `Map` key order; each count is the element's number of occurrences, at least one; no two records share a text |
| Frequencies.DistinctFirstOccurrence | main.js:160-163 | `Map` keys come out in the order of their first occurrence |
| Frequencies.TallyTotal | main.js:159-164 | the record counts add up to the number of counted elements |
| Frequencies.SortByCount | main.js:165 | the sorted list is a permutation of its input |
| Frequencies.SortSorted | main.js:165 | the sorted list has non-increasing counts |
| Frequencies.SortStable | main.js:165 | for every count, the records with that count keep their relative order |
| Frequencies.StableTie | main.js:165 | two sorted records of equal count stand in the input in the same order |
| Frequencies.SortTotal | main.js:165 | sorting keeps the sum of the counts |
| Frequencies.SortDistinct | main.js:165 | sorting keeps the texts distinct |
| Frequencies.RankedFacts | main.js:159-165 | the ranked list has one record per distinct element, with distinct texts. Each count is the element's number of occurrences, at least one. The counts sum to the number of elements and are non-increasing. Equal counts keep `Map` order |
| Frequencies.TiesInFirstOccurrenceOrder | main.js:160-165 | of two ranked records with the same count, the one whose text occurs first is ranked first |
| WordPath.TooShort | main.js:150 | a token is too short when its UTF-16 length is below the minimum word length |
| WordPath.StopForm | main.js:152-153 | the token itself after `lowercase_all`, its lowercase form otherwise |
| WordPath.IsStopword | main.js:154 | a token is removed as a stopword exactly when stopword filtering is on and its comparison form is in the stopword set |
| WordPath.WordTokens | main.js:149-159 | `wordTokens` holds exactly the base tokens whose UTF-16 length reaches the minimum and that are no stopword, never more tokens than the base; multiplicity and order are in `WordTokensCount` and `WordTokensAppend` |
| WordPath.WordTokensCount | main.js:149-159 | every copy of a kept token is kept: each word token occurs in `wordTokens` as often as among the base tokens |
| WordPath.WordTokensAppend | main.js:149-159 | the word tokens of two runs of base tokens are those of the first followed by those of the second, so their order is the base-token order |
| WordPath.WordTokensSnoc | main.js:149-159 | one more base token is appended to the word tokens exactly when it is long enough and no stopword |
| WordPath.StopwordHits | main.js:147-156 | `stopwordsRemoved` never exceeds the number of base tokens |
| WordPath.Partition | main.js:149-161 | every base token is too short, a stopword hit, or a word token, so the three counts add up to the number of base tokens |
| WordPath.LenientKeepsAll | main.js:150 | with minimum length at most 1 and no stopword filtering, every base token is counted and no stopword is removed |
| WordPath.NoShort | main.js:150 | with a minimum length of at most 1 no base token is skipped as too short, whatever the stopword setting, since base tokens are never empty |
| WordPath.CountToken | main.js:149-160 | one turn of the loop: a short token changes nothing, a stopword adds one to `stopwordsRemoved`, any other token is appended to `wordTokens` and counted in the `Map`, whose keys and counts stay those of `wordTokens` |
| WordPath.CountWords | main.js:144-165 | the loop, testing `tok.length` in UTF-16 code units, produces exactly `wordTokens`, the stopword hits, and the ranked records of `wordTokens` |
| Analysis.Analyze | main.js:111-181 | the result object of `analyzeText`; `AnalyzeText`, `AnalysisInvariants`, `WordCountsFromBase` and `PhraseSettings` state its properties |
| Analysis.PhraseResults | main.js:167-172 | no phrases when off, otherwise the ranked windows of 2 (bigrams) or 3 tokens; see `PhraseSettings` |
| Analysis.PhraseLength | main.js:170 | the window length is 2 exactly for `bigrams`, and 3 for any other setting |
| Phrases.Ngrams | main.js:102-103 | there are `len - n + 1` windows, or none when there are fewer than `n` tokens |
| Phrases.BuildPhrases | main.js:99-109 | returns `[]` when there are fewer than `n` tokens, and otherwise the ranked windows of `n` tokens joined by single spaces |
| Phrases.PhraseIsWindow | main.js:103 | splitting a phrase on white space gives back exactly its `n` consecutive tokens |
| Phrases.PhraseFacts | main.js:99-108 | the phrase counts sum to `len - n + 1`. Each phrase is a window with its number of occurrences, at least one. Phrases are distinct and ranked by non-increasing count |
| Analysis.AnalyzeText | main.js:111-181 | the method computes `Analyze`; `totalWords` is the sum of the word counts and `uniqueWords` the number of word records |
| Analysis.AnalysisInvariants | main.js:149-180 | `totalWords` is the sum of the counts and `uniqueWords` the length. Words are distinct, with counts equal to occurrences (at least one). Both lists are ranked. Short tokens + `stopwordsRemoved` + `totalWords` = number of base tokens |
| Analysis.WordCountsFromBase | main.js:149-165 | each word's count is its number of occurrences among the base tokens, and the word is neither too short nor a stopword |
| Analysis.PhraseSettings | main.js:167-172 | no phrases when counting is off; otherwise windows of 2 for bigrams and 3 for any other setting, empty for too few tokens, counts summing to the number of windows |
| Analysis.PhrasesIgnoreWordFilters | main.js:167-172 | the phrase list does not depend on the minimum word length, stopword filtering or the stopword set |
| Analysis.HandleAnalysis | main.js:283-296 | with or without the blank-text shortcut, `totalWords` is the sum of the word counts, `uniqueWords` the number of words, and both lists are ranked |
| Analysis.BlankShowsNothing | main.js:285-292 | blank text shows the zero result: no words, no phrases, and `totalWords`, `uniqueWords` and `stopwordsRemoved` all 0 |
| Analysis.BlankShortcut | main.js:284-296 | the blank-text shortcut gives the same result as a full analysis; with `lowercase_all` this uses that `toLowerCase` keeps white space white space |
| Analysis.MostFrequentWord | main.js:188-189 | the first ranked word, or `-` when there is none; `MostFrequentIsMaximal` proves it has the largest count |
| Analysis.MostFrequentIsMaximal | main.js:188-189 | the "most frequent word" is a counted word, and no word has a larger count |
| ResultView.Matching | main.js:225-234 | the filtered list holds exactly the records whose lowercased text contains the lowercased filter |
| ResultView.EmptyFilterKeepsAll | main.js:228-234 | an empty filter text, as the reset leaves it, keeps the whole list |
| ResultView.TotalPages | main.js:236 | at least one page; exactly one for no items; otherwise the least number of pages that holds all items |
| ResultView.PageStart | main.js:244 | the first index of a page in range is within the list, and before its end when the list is non-empty |
| ResultView.Percent | main.js:257-260 | the percentage is never negative, at most 100 for a count within the total, and `count * 100 / totalWords` exactly; 0 when `totalWords` is not positive |
| ResultView.PageRows | main.js:244-261 | the rows of the page slice ranked `start + idx + 1`; `RenderFacts` states their properties |
| ResultView.Render | main.js:215-281 | what a render shows; `RenderFacts` and `EveryItemOnItsPage` state its properties |
| ResultView.PageRowsOf | main.js:251-261 | the row loop builds the rows of the page slice, ranked `start + idx + 1`, with their texts, counts and percentages |
| ResultView.RenderFacts | main.js:236-280 | the page is clamped into `1..totalPages` and the page holds at most `pageSize` rows. It holds at least one row unless the filtered list is empty. Row `idx` is the filtered record at `start + idx`, ranked `start + idx + 1`, with the percentage `Percent(count, totalWords)`, and contains the filter. Prev is disabled iff on page 1, next iff on the last page |
| ResultView.EveryItemOnItsPage | main.js:244-253 | filtered record `k` is shown on page `k / pageSize + 1`, in row `k % pageSize`, with rank `k + 1` |
| ResultView.View.constructor | main.js:75-78 | a new table starts with no data and on page 1; the empty filter is the filter field's assumed initial value, which the script never sets |
| ResultView.View.RenderTable | main.js:215-281 | renders the current state, writes the clamped page back, and changes nothing else |
| ResultView.View.SetFilter | main.js:353 | typing in the filter renders with the new filter text |
| ResultView.View.SetPageSize | main.js:354-357 | a page-size change goes back to page 1 and renders |
| ResultView.View.PrevPage | main.js:358-361 | prev moves to `max(1, page - 1)` and renders |
| ResultView.View.NextPage | main.js:362-365 | next adds one to the page; after the render the page never exceeds `totalPages` |
| ResultView.View.Load | main.js:194-210 | new data is stored. The word table is always reset to page 1 with an empty filter and rendered. The phrase table is reset and rendered only for a non-empty list; otherwise it keeps its page and filter and is hidden |
| Display.UpdateUI | main.js:183-211 | both tables receive the new lists, with percentages taken against the result's `totalWords`; the word table is reset, and the phrase table only when it has phrases; neither page size changes |

## Left out

- `service-worker.js`: its cache install, activate and fetch handlers are browser I/O with no analysis logic.
- `loadStopwords` is a network fetch and JSON parse. The stopword set is a parameter of the model instead of the global it fills.
- DOM access, row insertion and the language attribute are not modelled. Of `style.display`, only the hiding of the phrase section is modelled, as `View.Load` returning `None`. Of the statistics text, only the most frequent word is modelled (`Analysis.MostFrequentWord`). Theme handling, `localStorage`, the year footer, file upload, clipboard paste and event registration are not modelled either.
- Timing is not modelled, because it reads a clock. The large-text warning (main.js:299) is a display switch on the text length and is not modelled either.
- The percentage column is the exact ratio `count * 100 / totalWords`, or 0 when `totalWords` is not positive. `toFixed(2)` rounding and the `%` text are not modelled, because they are floating-point formatting.
- `renderTable` reads `totalWords` back from the statistics text. The model passes it as a parameter, and `Display.UpdateUI` passes the result's `totalWords`.
- The pagination info text ("Page x of y (n items)") and the "No data to display." row are display text. They are not modelled beyond `totalItems` and an empty row list.
- `\p{L}`, `\p{N}`, `\s` and `toLowerCase` are not given their Unicode tables. Every statement holds for any choice of them in which U+0020 is white space and the empty string lowercases to the empty string. `\d` matches only the ten ASCII digits.
- Text is a sequence of Unicode scalar values. A JavaScript string may also hold lone surrogate code units, and those are not modelled. `Strings.Utf16Length` counts one code unit below U+10000 and two above, as `length` does.
- `Tokenizer.Options`: the case-handling select has only two cases, because any value other than `lowercase_all` leaves case alone. The phrase select has three, because any value other than `off` and `bigrams` counts trigrams.
- `Tokenizer.Options`: `minWordLength` is whatever integer `parseInt(...) || 1` produced. The form-reading of `handleAnalysis` is not modelled.
- `ResultView.View`: the page size is required to be positive, as every option of the page-size select is.
- `Frequencies.SortByCount`: the engine's sort algorithm is not modelled. Any stable sort by decreasing count gives the same list, and the model uses a stable insertion sort.
- Analysis.BlankShortcut: with `lowercase_all` it assumes `TextClasses.LowerKeepsBlank`, that lowercasing white space gives white space. The real tables meet it (no white-space character has a case); the abstract `toLowerCase` is not otherwise constrained.
