# vocab_tool: a verified model of the vocabulary pipeline

`vocab_tool.py` turns Chinese text into a ranked vocabulary list. An
external word segmenter splits the text into sentence chunks of tokens, and
the tool works on its output in four steps:

- it cleans each chunk (`get_segs`) and cuts skip strings out of it
  (`filter_skips`, built on `find_subseq`);
- it counts candidate words over a sliding window of tokens
  (`build_counts`), recording each word's HSK 2 level, HSK 3 level and
  dictionary definition;
- it lets a word through only when its characters reach configured
  minimum levels (`check_characters`, with the global cache `CHAR_CACHE`);
- it keeps the words that pass the configured tests and sorts them by
  count, HSK 3 level and HSK 2 level, highest first (`filter_counts`).

The project models this sequential core between the segmenter and the
printer in Dafny. Each loop of the source is a method proved against a
specification function. The properties the tool relies on are lemmas
about those functions.

Modules, in pipeline order:

- `Common`: Python indexing and slicing (`PyIndex`, `PySlice`, `PyCut`),
  string concatenation, subsequences.
- `Text`: `str.strip`, `str.isascii`, `PUNCT_CHARS` and `is_all_punct`.
- `Config`: the settings read from the global `CONFIG`, as one value.
- `Lookup`: the HSK 2, HSK 3 and dictionary lookups as functions passed
  in, including the `HSK3` subclass that adds one to the category index.
- `Subsequence`: `find_subseq`.
- `SkipFilter`: `filter_skips`, both as written and with overlapping runs
  handled.
- `Segments`: the token cleaning of `get_segs`.
- `Counter`: `build_counts`. Its result is an insertion-ordered map: a
  key order plus a map of entries.
- `CharGate`: `check_characters` and `CHAR_CACHE`, as a class that owns
  the cache map. Both the version as written and the corrected one are
  modelled.
- `Ranking`: `filter_counts`, with the stable descending sort.

In two places the code evidently does not do what it means to. These are
listed under "## Findings". In each, the behaviour as written is modelled
and the discrepancy is exhibited on a concrete input, and the rest of the
model uses the corrected version.

## Model

| member | source | states |
|---|---|---|
| `Common.PySlice` | vocab_tool.py:82 | `s[lo:hi]` with an in-range start is the Dafny slice up to `min(hi, len(s))` |
| `Common.PyCut` | vocab_tool.py:106 | `(*s[:a], *s[b:])` for valid `a <= b` removes exactly `b - a` tokens, keeping those before and after |
| `Subsequence.ChunkFitsIff` | vocab_tool.py:82 | the test `needle[plen:plen+clen] == chunk` holds exactly when the chunk fits inside the needle and equals that part of it |
| `Subsequence.ScanStep` | vocab_tool.py:80-87 | one token of the inner loop: a misfit ends the scan with nothing, an exact fit ends it with the run length, and a partial fit moves on with more of the needle consumed |
| `Subsequence.ScanAt` | vocab_tool.py:78-87 | the inner loop for one start returns what the scan specification gives for that start |
| `Subsequence.ScanSpec` | vocab_tool.py:79-87 | the scan from a start finds the shortest run from there that concatenates to the needle, or reports none when no run from there does |
| `Subsequence.ShortestUnique` | vocab_tool.py:85-87 | at most one shortest run starts at each index |
| `Subsequence.RunsAtExact` | vocab_tool.py:77-87 | the runs recorded for start `i` are exactly the shortest matching run starting at `i` |
| `Subsequence.MatchesBeforeExact` | vocab_tool.py:77-87 | after the starts below `n`, the result holds exactly the shortest matching runs starting below `n` |
| `Subsequence.FindSubseq` | vocab_tool.py:74-88 | `find_subseq` returns the specification list `Matches` |
| `Subsequence.MatchesExact` | vocab_tool.py:74-88 | soundness and completeness: a pair `(i, l)` is reported iff tokens `i..i+l` concatenate to the needle and no shorter run from `i` does |
| `Subsequence.MatchesComplete` | vocab_tool.py:74-88 | every start of a matching run is reported, with a length no greater |
| `Subsequence.MatchesIncreasing` | vocab_tool.py:77-86 | reported starts strictly increase, so there is at most one pair per start |
| `Subsequence.MatchesInside` | vocab_tool.py:74-88 | every reported run is non-empty and lies inside the haystack |
| `Subsequence.MatchesEmptyNeedle` | vocab_tool.py:74-88 | over non-empty tokens an empty needle yields no run |
| `Text.StripLeftSpec` | vocab_tool.py:122 | stripping on the left keeps a suffix that does not start with white space and drops only white space |
| `Text.StripRightSpec` | vocab_tool.py:122 | stripping on the right keeps a prefix that does not end with white space and drops only white space |
| `Text.StripSpec` | vocab_tool.py:122 | `w.strip()` is a slice of `w` with only white space outside it and no white space at either end |
| `Text.StripIdempotent` | vocab_tool.py:122 | stripping twice is stripping once |
| `Text.PunctExamples` | vocab_tool.py:91-92 | full-width marks are punctuation, the empty string is all punctuation, and a Han character is not |
| `Lookup.Hsk3LevelStrip` | vocab_tool.py:63-66 | the override strips the word before the table lookup, so a word and its stripped form get the same HSK 3 level, and the same recorded level |
| `Lookup.Hsk3LevelZero` | vocab_tool.py:154 | the recorded HSK 3 level is 0 exactly when the stripped word is not in the HSK 3 table |
| `SkipFilter.RemoveRuns` | vocab_tool.py:103-107 | the corrected removal loop never lengthens the segment, and shortens it when the first run can be removed |
| `SkipFilter.RemoveRunsOnlyRemoves` | vocab_tool.py:103-107 | the corrected removal only drops tokens: its result is a subsequence of its input |
| `SkipFilter.RemoveRunsDeletesExactly` | vocab_tool.py:103-107 | on disjoint runs the corrected removal deletes exactly the tokens inside the runs and keeps the rest in order |
| `SkipFilter.AsWrittenAgreesOnDisjoint` | vocab_tool.py:103-107 | on disjoint runs the `offs` loop as written and the corrected loop give the same segment |
| `SkipFilter.AsWrittenRemovesDisjoint` | vocab_tool.py:103-107 | for pairwise disjoint runs the `offs` loop as written deletes exactly those runs and keeps all other tokens in order |
| `SkipFilter.AsWrittenRemovesDisjointMatches` | vocab_tool.py:99-107 | when the runs reported for a skip string do not overlap, the loop as written removes exactly those runs |
| `SkipFilter.RemoveMatches` | vocab_tool.py:99-107 | removing what is reported never lengthens the segment, and strictly shortens it when something is reported |
| `SkipFilter.RemoveMatchesOnlyRemoves` | vocab_tool.py:99-107 | removing what is reported only drops tokens |
| `SkipFilter.RemoveReported` | vocab_tool.py:103-107 | the removal loop over the reported runs yields the corrected removal of those runs |
| `SkipFilter.VisitSkip` | vocab_tool.py:99-107 | a skip string that is not found leaves segment and counter alone; one that is found adds one to `found` and has its runs removed |
| `SkipFilter.PassWithNoneFound` | vocab_tool.py:97-107 | a pass ends with `found == 0` iff no skip string it visited occurs in the segment it was given, and then the segment is unchanged |
| `SkipFilter.PassWithShrinks` | vocab_tool.py:97-107 | if removal never lengthens a segment and shortens it whenever something is found, then a pass never lengthens, and one with `found > 0` strictly shortens |
| `SkipFilter.PassWithOnlyRemoves` | vocab_tool.py:97-107 | if removal only drops tokens, so does a pass |
| `SkipFilter.PassFromStep` | vocab_tool.py:98-107 | one more skip string either leaves the pass state or counts it and removes its runs |
| `SkipFilter.PassFromVisit` | vocab_tool.py:98-107 | the state after `VisitSkip` is the next state of the pass |
| `SkipFilter.PassFromShrinks` | vocab_tool.py:97-108 | a pass with the corrected removal never lengthens the segment, and one with `found > 0` strictly shortens it |
| `SkipFilter.PassFromOnlyRemoves` | vocab_tool.py:97-107 | a pass only drops tokens |
| `SkipFilter.PassNoMatches` | vocab_tool.py:97-109 | a pass finds nothing iff `find_subseq` reports nothing for every skip string, and then the segment is unchanged |
| `SkipFilter.SkipPass` | vocab_tool.py:97-107 | the body of the `while True` loop computes one pass |
| `SkipFilter.FilterSkips` | vocab_tool.py:95-110 | the `while True` loop, with the corrected removal, terminates because a pass with `found > 0` shortens the segment, and returns the specification `Filtered` |
| `SkipFilter.FilteredHasNoSkips` | vocab_tool.py:95-110 | fixpoint: `find_subseq` reports nothing for any skip string against the result |
| `SkipFilter.FilteredIdempotent` | vocab_tool.py:95-110 | filtering the result again returns it unchanged |
| `SkipFilter.FilteredOnlyRemoves` | vocab_tool.py:95-110 | filtering only drops tokens: it never invents, duplicates or reorders one |
| `SkipFilter.FilteredEmpty` | vocab_tool.py:95-110 | the empty segment is returned unchanged |
| `SkipFilter.SkipScenario` | vocab_tool.py:95-110 | with skip string 的, the segment 你/的/书 becomes 你/书 |
| `SkipFilter.OverlappingRunsDuplicateTokens` | vocab_tool.py:104-106 | skip string 哈哈 is reported at 0 and at 1 in 哈/哈/哈/啊/吧; the loop as written then keeps 啊 twice, and the corrected loop leaves 哈/啊/吧 |
| `SkipFilter.OverlappingRunsLengthen` | vocab_tool.py:104-107 | skip string 哈哈 is reported at 0 and at 1 in 哈/哈/哈/甲/乙/丙/丁; the loop as written turns these seven tokens into eight, so a pass that found something can lengthen the segment |
| `Segments.CleanTokensExact` | vocab_tool.py:120-124 | a token survives cleaning iff it is the stripped form of a token of the chunk that is non-empty, not all punctuation and not all ASCII |
| `Segments.CleanTokensOrder` | vocab_tool.py:120-124 | cleaning only drops tokens: the result is a subsequence of the stripped chunk |
| `Segments.CleanSegmentSpec` | vocab_tool.py:120-125 | a cleaned and filtered segment holds only clean stripped tokens, taken from the chunk in order, with no skip string left in it |
| `Segments.SegmentOfExact` | vocab_tool.py:118-128 | a chunk contributes a segment iff its cleaned and filtered form is non-empty, and then contributes exactly that |
| `Segments.CleanedIndex` | vocab_tool.py:117-125 | the cleaned list has one entry per chunk, the cleaned form of that chunk |
| `Segments.SegsExact` | vocab_tool.py:117-128 | the segments returned are exactly the non-empty cleaned forms of the chunks |
| `Segments.SegsClean` | vocab_tool.py:117-128 | every kept segment is non-empty and has no skip string left in it; each of its tokens is stripped, non-empty, not all punctuation and not all ASCII |
| `Segments.GetSegs` | vocab_tool.py:117-129 | the loop of `get_segs` returns the specification `Segs` of the segmenter's output |
| `Counter.PutSpec` | vocab_tool.py:148-162 | storing a valid entry keeps the map valid and changes only that word's count; existing keys keep their places, and a new key goes last |
| `Counter.CountAlt` | vocab_tool.py:146-162 | one alternative adds 1 to its own count when it is long enough, creates its entry with the looked-up metadata on first sight, and changes no other count |
| `Counter.CountAlts` | vocab_tool.py:145-162 | the innermost loop adds 1 to the count of every alternative that is long enough, and to nothing else; existing keys keep their order |
| `Counter.CountAltsStep` | vocab_tool.py:145-162 | after one more alternative, the counts are those of the alternatives visited so far |
| `Counter.AddAltSpec` | vocab_tool.py:144 | `alts.add(w)` keeps the alternatives duplicate-free and adds exactly `w` |
| `Counter.PrefixStep` | vocab_tool.py:140-162 | a prefix length adds its prefix to the alternatives iff it is long enough and not a skip string, and then adds 1 to every long-enough alternative so far |
| `Counter.CountPrefix` | vocab_tool.py:141-162 | one prefix step updates the alternatives and the counts as `PrefixStep` describes |
| `Counter.CountPosition` | vocab_tool.py:138-162 | one window position adds the hits of that position to every count, and nothing else |
| `Counter.BuildCounts` | vocab_tool.py:132-163 | the map is valid: each key once, every count at least 1, metadata as looked up at first sight and never changed; every count is the closed-form number of occurrences; a word is a key iff it occurs |
| `Counter.HitsUpToShape` | vocab_tool.py:139-162 | a position with an empty prefix range counts nothing, and a word it counts is long enough and one of its alternatives |
| `Counter.HitsShape` | vocab_tool.py:137-162 | a word counted at a position is long enough and is the token there, or is a non-skip prefix of the window shorter than the range's end |
| `Counter.OccBeforeSome` | vocab_tool.py:137-162 | a word with a count was counted at some position |
| `Counter.CountedWordShape` | vocab_tool.py:136-162 | every key has length at least `length_min` and is a flattened token or `chunk[:L]` for some position, with `length_min <= L < min(len(chunk), length_max)` and not a skip string |
| `Counter.HitsUpToClosed` | vocab_tool.py:140-162 | at one position, the token is counted once per counting prefix length, and a prefix once per counting length from its own length on; any other word is not counted |
| `Counter.ExampleWindows` | vocab_tool.py:137-138 | in the worked example the windows are 我喜欢, 喜欢学习, 学习中文, 中文 |
| `Counter.ExampleHits0` | vocab_tool.py:137-162 | in the worked example the first position counts only 我喜 |
| `Counter.ExampleHitsMiddle` | vocab_tool.py:137-162 | in the worked example the middle positions count their token twice and one three-character prefix once |
| `Counter.ExampleHits3` | vocab_tool.py:137-162 | in the worked example the last position has an empty prefix range and counts nothing, so 中文 is never recorded |
| `Counter.WorkedExample` | vocab_tool.py:132-163 | 我/喜欢/学习/中文 with `length_min` 2, `length_max` 4 and a window of 2 yields 我喜:1, 喜欢:2, 喜欢学:1, 学习:2, 学习中:1 and nothing else |
| `CharGate.CharCache.constructor` | vocab_tool.py:166 | the cache starts empty and valid |
| `CharGate.CharCache.CheckAsWritten` | vocab_tool.py:169-182 | as written: true when both minimums are below 1; otherwise true iff the word is non-empty and its first character's levels pass both tests. The cache gains only the entry `w ↦ levels of w[0]` and stays valid |
| `CharGate.CharCache.CheckCharacters` | vocab_tool.py:169-182 | corrected: true when both minimums are below 1; otherwise true iff some character passes the HSK 2 test and some character passes the HSK 3 test. The cache only gains one-character keys of the word's characters and stays valid |
| `CharGate.SomeCharStep` | vocab_tool.py:178-179 | one more character keeps the flags, or sets one when that character passes its test |
| `CharGate.SomeGrows` | vocab_tool.py:173-181 | a flag set by an earlier character stays set |
| `CharGate.EmptyWordFails` | vocab_tool.py:172-182 | with the check switched on, the empty word never passes |
| `CharGate.AsWrittenStricter` | vocab_tool.py:173-182 | the check as written passes only words the corrected check passes; the two agree on one-character words |
| `CharGate.FirstCharacterOnly` | vocab_tool.py:174-177 | 我难 with HSK 2 minimum 3, where only 难 reaches it, is rejected as written and accepted as intended |
| `Ranking.PassingFromExact` | vocab_tool.py:191-202 | a row is collected iff it is the row of a key whose entry passes every test of lines 192-200, with the corrected character gate at line 199, and with its own count and metadata |
| `Ranking.InsertPerm` | vocab_tool.py:203 | inserting one row adds exactly that row |
| `Ranking.InsertBound` | vocab_tool.py:203 | inserting a row keeps a bound on the keys |
| `Ranking.InsertSorted` | vocab_tool.py:203 | inserting into a descending list keeps it descending |
| `Ranking.SortDescSorted` | vocab_tool.py:203 | the sorted list is non-increasing by (count, hsk3, hsk2) |
| `Ranking.SortDescPerm` | vocab_tool.py:203 | the sorted list is a permutation of its input |
| `Ranking.WithKeyAppend` | vocab_tool.py:203 | the rows with a given key in a concatenation are those of each part, in order |
| `Ranking.WithKeySingle` | vocab_tool.py:203 | a single row is kept by a key filter iff it has that key |
| `Ranking.WithKeyBelow` | vocab_tool.py:203 | rows all below a key contain none with that key |
| `Ranking.SortedBelow` | vocab_tool.py:203 | in a descending list headed below `x`, every row is below `x` |
| `Ranking.InsertStable` | vocab_tool.py:203 | inserting a row puts it after the rows with an equal key |
| `Ranking.SortDescStable` | vocab_tool.py:203 | stability: rows with equal keys keep their relative order |
| `Ranking.FilterCounts` | vocab_tool.py:185-204 | `filter_counts` returns the stable descending sort of the rows that pass every test, in insertion order, and leaves the character cache valid |
| `Ranking.FilterCountsSpec` | vocab_tool.py:185-204 | the result is descending, a permutation of the passing rows, stable on equal keys, and holds a row iff it is the row of a key that passes every test, with the corrected character gate |

## Left out

- Input and output: argument parsing and `main` (223-295), `Config.__init__` with skip-file reading (28-55), and `go`, `pad` and printing (207-220) are not modelled. The settings are passed in as a `Config` value.
- `allowNoDefinition` is an ordinary parameter here. `Config.__init__` never copies it, so in the source it is always its class default, false.
- The segmenter `nlp.CkipWordSegmenter` (114-116) is an external model call. Its output is the input `segmented` of `Segments.GetSegs`.
- The HSK 2, HSK 3 and dictionary libraries (63-71, 153-155, 176) are foreign code. They are the three functions of `Lookup.Lookups`. Only the `HSK3` override, which adds one to the category index of the stripped word, is modelled.
- Python set and OrderedDict iteration order (98, 139, 191) is not modelled. Skip strings are a sequence, visited in a fixed order. The alternatives are a duplicate-free sequence, because each count adds one to every alternative whatever the order. The map's key order is its insertion order. The ranking's ties follow that order, which in the source depends on set iteration.
- The guard at line 158 is left out because it can never fire. The levels in `entry[1]` are already `or 0` integers, never `None`.
- `Config.lengthMin` and `Config.tryAlternatives` are natural numbers. From negative values the source would take Python's negative-index slices, which the model does not follow.
- `list.sort` is modelled by what it returns: a stable descending insertion sort, `Ranking.SortDesc`. Timsort's in-place steps are not modelled.
- `str.strip` removes the characters for which `str.isspace()` holds, written out as a fixed table in `Text.IsSpace`. Unicode normalisation and case are not involved.
- `SkipFilter.FilterSkips`: the modelled loop removes runs with the corrected removal, which passes over a run that starts before the end of the run removed last. With overlapping runs the slices of the source can duplicate tokens and lengthen the segment (`SkipFilter.OverlappingRunsLengthen`). Termination and the fixpoint are proved for the corrected loop only, not for the loop as written.
- `SkipFilter.RemoveReported`: it models the removal loop with the overlap check added. The loop as written is `SkipFilter.RemoveRunsAsWritten`. The two are proved equal only on disjoint runs (`SkipFilter.AsWrittenAgreesOnDisjoint`).
- `Ranking.PassingFromExact` and `Ranking.FilterCountsSpec` state the ranking with the corrected character gate at line 199, not the as-written one. `CharGate.AsWrittenStricter` shows that the as-written gate rejects every word the corrected one rejects, and possibly more.
- `Ranking.FilterCounts` calls the corrected `CharGate.CharCache.CheckCharacters`. The as-written gate is modelled and compared with it (see Findings) but is not wired into the ranking.
- `Ranking.FilterCounts`: its contract says the cache stays valid, not which entries it gains; `CharGate.CharCache.CheckCharacters` states that per call.

## Findings

| source | as written | input that shows it | evidently intended | confidence | as-written member | corrected member |
|---|---|---|---|---|---|---|
| vocab_tool.py:104-106 | each reported run's start is shifted back by `offs` and cut out with Python slices, even when it overlaps the run just removed; tokens can then be duplicated and the segment can grow (`SkipFilter.OverlappingRunsLengthen`) | skip string 哈哈 against 哈/哈/哈/啊/吧: `find_subseq` reports (0, 2) and (1, 2); the second shifted start is -1, and the slices give 哈/啊/啊/吧 | removing skip strings only drops tokens, so the result is 哈/啊/吧 | not executed | `SkipFilter.OverlappingRunsDuplicateTokens` | `SkipFilter.RemoveRunsOnlyRemoves` |
| vocab_tool.py:174-177 | `CHAR_CACHE` is read and written under the word `w`, so every iteration of the character loop sees the levels of the first character | 我难 with HSK 2 minimum 3 and HSK 3 minimum 0, where 我 has HSK 2 level 1 and 难 level 5: rejected | the loop over the characters passes a word when some character reaches each minimum, so 我难 passes | not executed | `CharGate.FirstCharacterOnly` | `CharGate.CharCache.CheckCharacters` |
