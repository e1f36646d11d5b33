# RadiumOSX query engine in Dafny

This project models the query engine of the RadiumOSX music player and proves
properties of the model. It covers both generations of the engine:

- version 3.0: `src/StringSearch.py` with `src/Radium2.py`;
- version 2.0: `StringSearch.py` with `Radium.py`.

A user types a search entry. The entry is a `;`-separated list of commands. Each
command is a run of modifier characters followed by `,`-separated terms. Each term
names a song, or a folder path ending in a song name, or (with a leading or trailing
`/`) a whole folder. Names are matched fuzzily. `stringSearch` ranks the positions of
a pool of normalised names in tiers: exact, first word, later word, prefixed,
continuous acronym, acronym, contained. Version 2.0 has no word tiers. The selected
songs then go to the front or back of the play queue, or replace the "active" set.
In version 3.0, `>name` references in an entry are first replaced by the text of a
macro file, up to a call limit.

Modules, one per part of the program:

- `Strings`: the Python string primitives the engine uses (`strip`, `lower`, `split`,
  `find`, `filter(len, ...)`), ASCII only.
- `Normalize`: `makeSearchable` and the two alphabets.
- `SequenceMatch`: the two recursive acronym matchers.
- `Matcher`: `stringSearch`. It is an imperative method with seven tier lists,
  proved equal to a specification function (`Search`), and the lemmas about it.
  One `Generation` parameter selects the five-tier legacy behaviour.
- `Library`: the library as an arena of folders, `searchFolders` (the
  `FindFolder` method and its specification `SearchFolders`), subtree
  flattening, and the stable sort by name length.
- `Macros`: `resolveMacros` as a specification: one expansion step and the
  bounded rewrite loop.
- `Commands`: command splitting, term selection, and what a command and an entry
  do to the player state. It is the specification both player classes are
  proved against.
- `Radium2` and `RadiumLegacy`: the player classes. Their `songQueue` and
  `activeSongs` fields are updated by `processSearchEntry`,
  `processSearchCommand`, `clearQueue` and `songQueuePop`.

The model follows the code, including these behaviours a reader of the command syntax might not expect:

- `stringSearch("abc", ["xabc", "abc", "abcx"], 3)` is `[1, 2, 0]`, because "xabc"
  is only contained.
- `makeSearchable` is not idempotent.
- An `@` command with `+`, `-` or `*` raises TypeError rather than combining sets.
- `searchFolders` and `resolveMacros` index the global folder and macro lists with
  positions found in a sub-list.

## Model

| member | source | states |
|---|---|---|
| Normalize.MakeSearchable | src/StringSearch.py:1-3 | the normal form only holds characters of the alphabet |
| Normalize.AlphabetsAreAlphabets | StringSearch.py:1 | neither alphabet has upper case or non-space whitespace; the legacy alphabet is contained in the current one |
| Normalize.SearchableIsSubsequence | src/StringSearch.py:2-3 | the normal form is a subsequence of the stripped, lower-cased name |
| Normalize.CleanIsFixed | src/StringSearch.py:2-3 | a name of allowed characters without spaces at either end is its own normal form |
| Normalize.IdempotentWhenEndsAreClean | src/StringSearch.py:2-3 | normalising twice equals normalising once when the first result has no space at either end |
| Normalize.NotIdempotent | src/StringSearch.py:2-3 | "! a" normalises to " a", which normalises to "a": normalisation is not idempotent |
| Normalize.LegacyFromCurrent | StringSearch.py:1-3 | the legacy normal form is the current one with `_`, `-` and `&` filtered out |
| Strings.Strip | src/Radium2.py:229 | `strip` gives a slice `s[a..b]` of the text with only whitespace outside it and no whitespace at either end |
| Strings.Lower | src/Radium2.py:229 | `lower` maps each character in place |
| Strings.Find | src/StringSearch.py:90 | `find` is -1 exactly when the character is absent, otherwise its first position |
| Strings.Split | src/Radium2.py:234 | `split` gives at least one piece and no piece holds the separator |
| Strings.JoinSplit | src/Radium2.py:234 | joining the pieces of `split` with the separator gives the text back |
| Strings.NonEmptyKeepsPieces | src/Radium2.py:289 | `filter(len, ...)` keeps every non-empty piece |
| Strings.NoPiecesIffOnlySeparators | src/Radium2.py:289 | splitting leaves no non-empty piece exactly when the text is separators only |
| Strings.Segments | src/Radium2.py:234 | the stripped, non-empty `;`/`,` segments are non-empty and free of the separator |
| Strings.StrippedNonEmptyKeepsPieces | src/Radium2.py:259 | no segment that is not blank is dropped |
| SequenceMatch.PrefixAccepted | src/StringSearch.py:79-120 | both matchers accept the empty term and any prefix of the name, and reject a term longer than the name (also StringSearch.py:86-127) |
| SequenceMatch.ContainsContinuousPrefixedSequence | src/StringSearch.py:79-100 | whatever the continuous matcher accepts, the unrestricted one accepts |
| SequenceMatch.ContainsPrefixedSequence | src/StringSearch.py:102-120 | the unrestricted matcher accepts every prefix of the name |
| SequenceMatch.FirstCharacterAnchored | src/StringSearch.py:53 | with `spaces=1` an accepted term starts with the name's first character, and the rest matches the rest of the name |
| SequenceMatch.AtMostOneSkip | src/StringSearch.py:79-100 | an accepted term matches its first character here, or at the start of the very next word; either way the rest matches with the jump counter reset |
| SequenceMatch.TheWind | src/StringSearch.py:79-120 | "tw" is found in "the wind" by both matchers |
| SequenceMatch.TheBigCat | src/StringSearch.py:79-120 | "tc" in "the big cat" is refused by the continuous matcher and accepted by the other |
| Matcher.Rank | src/StringSearch.py:24-67 | the tier an item deserves is the first test it passes; word tiers only when they apply |
| Matcher.Place | src/StringSearch.py:24-67 | one loop pass: an exact match always lands in the exact tier; any other landing tier is not over its cap |
| Matcher.PlaceByRank | src/StringSearch.py:33-64 | an item lands in the tier it deserves unless a tier checked on the way is over `limit`, and is then dropped without trying later tiers |
| Matcher.Truncate | src/StringSearch.py:69-77 | `[:limit]` is the prefix of `min(len, limit)` entries |
| Matcher.StringSearch | src/StringSearch.py:5-77 | the loop returns `Search`: at most `limit` distinct positions of `folder` |
| Matcher.SearchConcatenates | src/StringSearch.py:69-77 | the result is the seven tier lists concatenated in order and cut to `limit` |
| Matcher.ClassifyMembers | src/StringSearch.py:18-67 | a position is in tier `k` exactly when the loop placed it there |
| Matcher.Search | src/StringSearch.py:18-77 | at most `limit` results, none repeated, all positions of the pool (also StringSearch.py:17-63) |
| Matcher.TiersInPoolOrder | src/StringSearch.py:24-77 | each tier in ascending pool order, non-exact tiers hold at most `limit + 1`, result is their concatenation cut to `limit` |
| Matcher.ExactMatchFirst | src/StringSearch.py:19-26 | with `limit >= 1` the first position whose name equals the term (spaces ignored for a space-free term) is the first result |
| Matcher.RankAllMembers | src/StringSearch.py:24-67 | a position is in uncapped tier `k` exactly when it deserves tier `k` |
| Matcher.SmallPoolRanksEverything | src/StringSearch.py:5-77 | with no more items than `limit` no cap is reached: the result is every match grouped by tier, in pool order |
| Matcher.AbcExample | src/StringSearch.py:24-77 | `stringSearch("abc", ["xabc", "abc", "abcx"], 3) == [1, 2, 0]` |
| Matcher.EmptyTermTakesFirst | src/StringSearch.py:47-49 | with the empty term and non-empty space-free names, the result is the first `limit` positions |
| Matcher.SpaceFreeSelfIsExact | src/StringSearch.py:24-26 | a space-free term is an exact match for itself |
| Matcher.GenerationsAgreeOnSpacedTerms | src/StringSearch.py:14-43 | for a term with a space both generations give the same result |
| Matcher.LegacyHasFiveTiers | StringSearch.py:5-63 | the legacy result is exact, prefixed, continuous, sequence, contained, cut to `limit`; the word tiers stay empty |
| Library.Names | src/Radium2.py:160 | the names are the searchable names of the pool, position by position |
| Library.Omnifolder | src/Radium2.py:553 | the virtual root lists every folder of the arena in arena order, and holds the library's songs and macros |
| Library.SubFolderNames | src/Radium2.py:160 | the name at position `k` is the searchable name of the `k`-th sub-folder |
| Library.SearchFolders | src/Radium2.py:159-174 | a found folder is a position of the arena |
| Library.FindFolder | src/Radium2.py:159-174 | the recursion with its candidate loop returns `SearchFolders` (also Radium.py:121-136) |
| Library.Candidates | src/Radium2.py:161-168 | one candidate for the last part, at most `folderSearchLimit` for the others, all positions of the arena |
| Library.TryCandidates | src/Radium2.py:169-174 | a found folder is a position of the arena |
| Library.FirstSuccess | src/Radium2.py:169-174 | the loop returns the result of the first candidate that resolves, all earlier ones failing, or None |
| Library.FirstStep | src/Radium2.py:168-172 | a resolved path of several parts resolves from one candidate of its first level to the same folder |
| Library.WalkOf | src/Radium2.py:159-174 | a resolved path has a walk of one candidate per part (depth `len(parts)`) ending at the folder returned |
| Library.WalkResolves | src/Radium2.py:168-174 | a path with a walk resolves: a failing candidate never hides a later one that leads somewhere |
| Library.PositionQuirk | src/Radium2.py:163-165 | with folder "a" (position 0) holding folder "b" (position 1), "a/b" resolves to position 0, folder "a" itself |
| Library.GatherMembers | src/Radium2.py:176-188 | an entry is gathered from a folder exactly when some folder of its subtree holds it (also Radium.py:138-143) |
| Library.GatherAllMembers | src/Radium2.py:178-180 | the sub-folder loop gathers exactly what the sub-folders' subtrees hold |
| Library.Gather | src/Radium2.py:176-188 | the gathered list starts with the folder's own songs or macros |
| Library.GatheredSongsAreCatalogued | src/Radium2.py:176-181 | every gathered song is one of the library's songs |
| Library.SortByLenIsStableSort | src/Radium2.py:614-616 | the sort by name length is ordered, a permutation, and stable |
| Library.SortByLen | src/Radium2.py:614-616 | the sort keeps the number of entries and orders them by name length |
| Library.SortingSortedIsIdle | src/Radium2.py:306 | sorting a list already in order changes nothing |
| Macros.RunEnd | src/Radium2.py:196 | the greedy end of a run of `[a-z \/]` characters |
| Macros.FindRefFrom | src/Radium2.py:196 | `re.search` finds the leftmost `>` followed by a reference character, or None exactly when there is none |
| Macros.FindMacroRef | src/Radium2.py:196 | a found span holds at least one reference character |
| Macros.LowerKeepsRefChars | src/Radium2.py:203 | `lower` leaves reference characters as they are |
| Macros.SpanIsRun | src/Radium2.py:196 | the group of a found reference is made of reference characters |
| Macros.StrippedReferenceIsRun | src/Radium2.py:203 | the stripped group is still made of reference characters |
| Macros.EmptyPathIffSlashes | src/Radium2.py:203-204 | the path of a reference is empty exactly when its stripped text is slashes only |
| Macros.SlashOnlyReferenceCrashes | src/Radium2.py:204-216 | such a reference makes `resolveMacros` raise IndexError |
| Macros.ExpansionSplices | src/Radium2.py:220-225 | a successful pass replaces exactly the span by a catalogued macro's text, keeping both sides |
| Macros.MacroPool | src/Radium2.py:201-212 | a pool found for a reference is ordered by name length |
| Macros.ExpandOnce | src/Radium2.py:201-225 | one pass crashes only with IndexError (slashes only, or the global-list quirk) or FileError (missing macro file) |
| Macros.FromPool | src/Radium2.py:212-225 | the search of the pool crashes only with IndexError (the global-list quirk) or FileError |
| Macros.Next | src/Radium2.py:196-198 | no step exactly when the entry holds no reference |
| Macros.Rewrite | src/Radium2.py:191-199 | an entry the loop returns admits no further step |
| Macros.Expand | src/Radium2.py:190-226 | an entry `resolveMacros` returns holds no `>` reference |
| Macros.RewriteWithinLimit | src/Radium2.py:191-199 | a resolved entry has no reference left and was reached by at most `limit - count` steps |
| Macros.ChainRewrites | src/Radium2.py:191-199 | a chain of at most `limit - count` steps ending without a reference is what the loop returns |
| Macros.TooManyCalls | src/Radium2.py:193-194 | after `limit - count + 1` steps the loop gives up even when no reference remains |
| Macros.FixedPointIsAbandoned | src/Radium2.py:193-194 | a text rewriting to itself is abandoned at the limit |
| Macros.ExpandedHasNoReference | src/Radium2.py:190-226 | `resolveMacros` returns an entry without references, reached by at most `macroCallLimit` substitutions |
| Macros.SelfReferenceIsAbandoned | src/Radium2.py:193-194 | a macro that brings back its own reference in place makes `resolveMacros` give up |
| Macros.NoReferenceUnchanged | src/Radium2.py:196-198 | an entry without a reference is returned unchanged |
| Commands.FirstSearch | src/Radium2.py:249-252 | the first position from `p` where the search text may start |
| Commands.SplitPoint | src/Radium2.py:248-252 | `split` is 0 or a position inside the command |
| Commands.SplitIndex | src/Radium2.py:248-252 | the `for` loop computes `SplitPoint` |
| Commands.ModifiersPrecedeSearch | src/Radium2.py:254-255 | modifiers plus search text is the command, and no modifier is searchable or a slash |
| Commands.CurrentModifiersLackDash | src/Radium2.py:249-255 | in version 3.0 `-` and space are never modifiers |
| Commands.DashExamples | Radium.py:155-162 | "@-abc" has modifiers "@-" in version 2.0 and "@" in version 3.0 |
| Commands.PathParts | src/Radium2.py:289 | the path parts are empty exactly for a term of slashes only |
| Commands.ArrangedKeepsSongs | src/Radium2.py:306 | the arranged pool is a permutation of the pool |
| Commands.PickSong | src/Radium2.py:305-310 | at most one song, taken from the pool |
| Commands.ExactSongIsPicked | src/Radium2.py:305-310 | the first song of the arranged pool whose name equals the term is picked |
| Commands.SelectSongs | src/Radium2.py:286-310 | a term that is not a whole folder selects at most one song (also Radium.py:193-216) |
| Commands.WholeFolderSelection | src/Radium2.py:291-304 | a whole-folder term selects exactly the songs held below the folder found, and nothing when none is found |
| Commands.SelectionIsCatalogued | src/Radium2.py:286-310 | every selected song is one of the library's songs |
| Commands.TermSelector | src/Radium2.py:286-310 | `processSearchTerm` is defined on every term that is not slashes only |
| Commands.SelectAllMembers | src/Radium2.py:259-261 | the term loop raises exactly when a term is slashes only; otherwise a song is selected exactly when some term selects it |
| Commands.SelectAll | src/Radium2.py:257-261 | the term loop raises exactly when some term is slashes only |
| Commands.SelectAllNoneSelected | src/Radium2.py:259-261 | terms that select nothing give the empty selection |
| Commands.Interpret | src/Radium2.py:238-284 | lone `@` and only it clears the active set, lone `?` and only it shuffles the queue; TypeError only for `@` with `+ - *` |
| Commands.Decide | src/Radium2.py:257-275 | IndexError exactly when a term is slashes only; TypeError only for an `@` command with `+ - *`; never FileError or a lone-command effect |
| Commands.Performs | src/Radium2.py:238-284 | a command raises exactly when its effect is a failure, and then changes nothing |
| Commands.Runs | src/Radium2.py:234-236 | a run records at most one state per command plus the initial one, and exactly that many when it completes |
| Commands.CurrentNeverSubtracts | src/Radium2.py:269-270 | in version 3.0 the `-=` branch is never reached |
| Commands.EnqueueKeepsQueue | src/Radium2.py:276-283 | queue mode keeps the old queue as one block and adds the selection as a multiset |
| Commands.QueueModeAddsSelection | src/Radium2.py:276-283 | with `+` the queue is old ++ selected, otherwise selected ++ old (up to the shuffle with `?`); the active set stays |
| Commands.EmptySelectionChangesNothing | src/Radium2.py:263-264 | a command whose terms select nothing changes nothing |
| Commands.ActiveMode | src/Radium2.py:266-275 | `@` without `+ - *` makes the active set exactly the selection; with one of them TypeError and no change |
| Commands.SlashTermRaises | src/Radium2.py:259-261 | a term of slashes only raises IndexError before anything changes |
| Commands.LoneCommands | src/Radium2.py:240-246 | lone `?` only permutes the queue; lone `@` only empties the active set |
| Commands.RunSteps | src/Radium2.py:234-236 | an entry runs its commands in order, each completing but the last that ran, all of them when it completes |
| Commands.RaiseChangesNothing | src/Radium2.py:266-272 | a command that raises leaves the player as it was |
| Commands.RaisedStopsEntry | src/Radium2.py:235-236 | the commands after an exception do not run |
| Commands.RaisedRunEndsUnchanged | src/Radium2.py:235-236 | in an entry that raised, the last command changed nothing |
| Commands.RunAdvances | src/Radium2.py:235-236 | a completed run extended by the next command is a run of one more command, or of all when it raised |
| Clock.Decimal | src/Radium2.py:25-30 | `str(n)` is one or more digits, one below 10, two below 100 |
| Clock.Pad2 | src/Radium2.py:25-30 | `:02d` gives two or more digits, exactly two below 100 |
| Clock.DecimalReadsBack | src/Radium2.py:25-30 | the decimal digits read back as the number |
| Clock.Pad2ReadsBack | src/Radium2.py:25-30 | the zero-padded digits read back as the number |
| Clock.MsToStr | src/Radium2.py:25-30 | below one hour five characters with a colon in the middle; from one hour on colons before the last two two-character fields |
| Clock.ShortClock | Radium.py:20-25 | below one hour: two two-digit fields, each below 60, reading back as the whole seconds modulo one hour |
| Clock.LongClock | src/Radium2.py:25-30 | from one hour on: three fields, minutes and seconds two digits and below 60, reading back in base 60 as the whole seconds |
| Clock.ClockExamples | Radium.py:20-25 | 205900 ms shows as "03:25", 3661000 ms as "01:01:01" |
| Radium2.Radium.constructor | src/Radium2.py:614-616 | the loaded library with song and macro lists sorted by name length, empty queue and active set |
| Radium2.Radium.ResolveMacros | src/Radium2.py:190-226 | the `while` loop returns `Expand` of the entry |
| Radium2.Radium.MacroPoolFor | src/Radium2.py:201-214 | the macro pool of a reference; for a lone name the global list as the loader sorted it |
| Radium2.Radium.Step | src/Radium2.py:201-225 | one loop body, with the `self.macros[foundIndices[0]]` quirk and FileError for a missing file, is `ExpandOnce` |
| Radium2.Radium.StepInPool | src/Radium2.py:212-225 | the search of the pool, the `self.macros[foundIndices[0]]` quirk, FileError and the splice are `FromPool` |
| Radium2.Radium.ProcessSearchTerm | src/Radium2.py:286-310 | `processSearchTerm` returns `SelectSongs` |
| Radium2.Radium.SelectTerms | src/Radium2.py:257-261 | the term loop returns `SelectAll` |
| Radium2.Radium.Apply | src/Radium2.py:266-284 | the state change the decided effect allows, TypeError without change for `+ - *` |
| Radium2.Radium.ProcessSearchCommand | src/Radium2.py:238-284 | the old and new player state are one `CommandStep` of the command |
| Radium2.Radium.RunNext | src/Radium2.py:235-236 | one command runs and the run grows by its step |
| Radium2.Radium.RunCommands | src/Radium2.py:234-236 | the states before and after each command form a `Runs` of the commands |
| Radium2.Radium.ProcessSearchEntry | src/Radium2.py:228-236 | the entry is stripped, lower-cased and resolved, and its commands run in order; nothing runs when resolution gives None or raises |
| Radium2.Radium.ClearQueue | src/Radium2.py:364-366 | the queue is empty and the active set unchanged |
| Radium2.Radium.SongQueuePop | src/Radium2.py:368-371 | `pop(index)` returns the item and removes it; `pop(0)` returns the head and leaves the tail |
| RadiumLegacy.Radium.constructor | Radium.py:44 | the loaded library, the branching limit, empty queue and active set |
| RadiumLegacy.Radium.ProcessSearchTerm | Radium.py:193-216 | `processSearchTerm` returns `SelectSongs` over the unsorted pool |
| RadiumLegacy.Radium.SelectTerms | Radium.py:164-168 | the term loop returns `SelectAll` |
| RadiumLegacy.Radium.Apply | Radium.py:173-191 | the state change the decided effect allows, TypeError without change for `+ - *` |
| RadiumLegacy.Radium.ProcessSearchCommand | Radium.py:145-191 | the old and new player state are one `CommandStep` with the legacy alphabet |
| RadiumLegacy.Radium.RunNext | Radium.py:118-119 | one command runs and the run grows by its step |
| RadiumLegacy.Radium.RunCommands | Radium.py:117-119 | the states before and after each command form a `Runs` of the commands |
| RadiumLegacy.Radium.ProcessSearchEntry | Radium.py:115-119 | the lower-cased, unstripped entry's `;`-segments run in order |
| RadiumLegacy.Radium.ClearQueue | Radium.py:266-268 | the queue is empty and the active set unchanged |
| RadiumLegacy.Radium.SongQueuePop | Radium.py:270-273 | `pop(index)` returns the item and removes it; `pop(0)` returns the head and leaves the tail |

## Left out

- Audio playback, seeking, volume, the menu-bar UI and its button updates, key bindings, the search dialog and threading: they do not touch the query state.
- Library loading and configuration (directory walk, config file): the folder arena, the song and macro lists and the two limits are inputs of the constructors. The loader's folder sort is taken as already applied.
- `readMacroFile`: file reading is I/O. The macro texts are a map from path to text, and a path missing from the map gives FileError, as `open` raises.
- `random.shuffle`: any permutation (equal multisets) may result.
- `str.lower`, `str.strip` and the alphabets are modelled on ASCII only. Unicode case mapping is left out.
- Library.Gather: `getAllSongsInFolder` and `getAllMacrosInFolder` would recurse forever on a folder that is its own descendant. The model requires folder heights that rank every sub-folder below its parent, as every tree built by a directory walk has. `searchFolders` needs no such ranking, since its depth is the number of path parts.
- Commands.SelectSongs: requires a term that is not slashes only. That term raises IndexError in `searchFolders([])`, and the command-level `Decide` models it as an IndexError outcome.
- Radium2.Radium.ProcessSearchTerm: requires a term that is not slashes only, for the same reason; `SelectTerms` raises before calling it.
- RadiumLegacy.Radium.ProcessSearchTerm: the same requirement as above.
- Radium2.Radium.SongQueuePop: requires an index in range. An out-of-range `pop` raises IndexError, which the only caller avoids by checking that the queue is non-empty.
- RadiumLegacy.Radium.SongQueuePop: the same requirement as above.
- Matcher.StringSearch: each item's tests are asked up front rather than one at a time until one passes. They are pure, so nothing observable changes.
- A negative `folderSearchLimit` (Python's negative slice) is not modelled: the limit is a natural number.
- The version 2.0 `Macro` record and its `contents` field are unused by the query engine and are not modelled.
- The version 2.0 loader's own reloading (`rebuildAll`) is library loading and is left out with it.
