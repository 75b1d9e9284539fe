# Verified model of the Pinyin decoding engine

This project models the decoding engine of a Google Pinyin input method (the code below `src/share` and `src/include`)
in Dafny and proves what its flat arrays, in-place loops and packed offsets amount to. Every file is checked together:
`dafny verify dfyconfig.toml`.

## What is modelled

The engine keeps four linked structures, each of them a fast form of something with a short description.

**The user dictionary** (`UserLog`, `UserCompact`, `UserKeys`, `UserStore`, `UserSteps`, `UserDefrag`, `UserCache`,
`UserSearch`, `UserWrite`, `UserReload`, `UserSlide`, `UserReclaim`, `UserDict`, `Perms`, `Lex`) is a log of byte
records with a sorted index, parallel scores and ids, a map from ids to offsets, tombstones, and ring caches.
`UserDict.Dict` reads off what it means: a map from lemmas to score and id. All operations are stated on that map:
putting, updating, removing, reclaiming, reloading, and the sliding compaction, which keeps the map, the order of the
live entries and the sync queue while it rewrites every index. Looking up by spelling ids gives what a scan of all
live records gives, whether cached or not.

**The lattice decoder** (`Lattice`, `Beam`, `Decoder`, `Segment`, `Decoded`, `Dictionaries`, `MatrixSearch`, `Phrase`,
`Leak`) keeps rows of at most five nodes and a pool of match nodes. `Decoder.Run` says what the lattice of a text is;
`Search` rewinds and extends its pools in place and ends, whatever was searched before, with the lattice, the
segmentation and the accepted length that the text alone gives. The decoder calls the spelling parser and asks the
trie of the system dictionary through its mile stones, and the proof carries the two stacks those live on: after every
step it is known where both end. The best node of a row has the least total over all chains of offered words, in spite
of the five-node cut and the pruning.

**The system dictionary** (`Trie`, `TrieCover`, `TrieWalk`, `DictBuilder`, `DictTrie`, `Dictionary`, `WordList`,
`CharSpellings`, `LemmaSplids`) is built from a sorted lemma array into packed nodes. Walking, batch lookup and
incremental lookup with mile stones are each equal to a selection from the array; a lemma's id leads to its word, and
back through the product of the spellings of its characters to its spelling ids.

**Spellings** (`SpellingIds`, `Spellings`, `SpellingTrie`, `SpellingParser`, `SpellingTable`, `Primes`, `Typing`): the
trie of spellings is built from a sorted list, with the ranges of full ids of the half ids; the parser is maximal
munch over that list; printing full ids and parsing them again gives them back exactly when each spelling is read as
itself; the spelling table is a hash table of prime size that refines a map to summed frequencies.

The form follows the source: objects that update their fields are classes, buffers are arrays, in-place loops are
loops with invariants, and each such method is proved against a function or predicate whose own properties are lemmas.

## Findings

Properties that one would expect and that the code does not have, each with an input or an exact condition.

- **Looking a lemma up may find a longer one.** `locate_in_offsets` compares with the length of the query, not of the
  record. `LongerLemmaHit` is a run: putting a lemma changes the score of a longer one and does not store it. `Meets`
  is the exact condition, a function of the state before the call (the cached range, else the bisection), and
  `PutLemma`, `RemoveLemma` and `UpdateLemma` are stated with it: put hits the lemma itself if and only if the
  dictionary has it or no longer lemma is met; remove and update succeed if and only if something is met.
- **Tied scores break the heap of `reclaim`.** `TiesBreakTheHeap` is a heap that sifting leaves broken; `SiftRestores`
  says sifting restores the heap if and only if the path from the start meets no tie of two greater sons. `Reclaim`
  removes the lemmas of the lowest scores if no sift of the whole routine meets a tie (`NoTieMet`); with distinct
  scores none does (`DistinctSmooth`).
- **A negative change of a frequency raises it to the maximum.** `UpdateSaturates` gives the new frequency for every
  change.
- **A removed lemma can stay in the sync queue.** Updates queue a lemma again, removing takes out one entry:
  `StaleEntry` builds the run, and `RemoveLemma` says the queue stays right if and only if the lemma is not queued
  twice.
- **Table sizes 3 and 41.** Stepping by 123 modulo a prime visits every slot if and only if the prime is neither 3 nor
  41 (`VisitsEverySlot`); with three slots a spelling is turned away although two are free (`ThreeSlotsTurnAway`).
- **The last letter loses its half id when it is switched off.** The two copies of the code in
  `construct_spellings_subset` ask different questions; `LastLetterLost` gives the exact condition for a first letter
  to have its full ids.
- **Words before a missing length are lost.** `SlotLost`: without all lengths the tables take in a word's id at its
  own length if and only if it has the greatest length or the next length is there. And the last word of the list is
  never given by its id: `GetLemmaStr` stops one short.
- **The first word fails the program's own check.** `get_lemma_id` asserts that the place it found is behind the start
  of the buffer. `GetLemmaId` says the check passes if and only if the word is not the first of the list, since only
  that one lies at the start (`AtStart`); the id would be right for it too.
- **`full_to_half` lets one id too many through.** It accepts the id behind the last full one, for which it has no
  entry; `FullToHalf` stays within its table if and only if it is not asked for that id.
- **Collecting characters may need one place more than is checked.** `build_scis` checks for eight places a lemma but
  also writes a blank one. `BuildScis` stays within its array unless the list overruns it; `OverrunsExactly` says that
  is so if and only if every lemma has eight characters and there are just eight places a lemma, `EightOverrun` is the
  smallest such list with a lemma.
- **Mile stones leak.** `reset_search` gives stones back only through the first match node of the next row, and only
  if that node has one; a character that is not accepted leaves its stones behind. `ResetSearch(k)` ends with no
  stones but those of the match nodes of the first k characters if and only if `HandsBack(k)` held before: those nodes
  hold every place below the one it goes back to. If nothing has leaked before, that is so if and only if the next row
  begins with a match node that has a stone, or no match node behind has one (`LeakCondition`). `AddChar` says where
  both stacks end in every case, so an addition leaks if and only if it is refused after making a match node with a
  stone, and `Search` says the same of a whole search. `SearchThatLeaks` is a run: the text `a'` over a dictionary of
  one lemma. The decoder's main theorem therefore asks that the stacks do not run out (`SearchRoom`);
  `RoomFromScratch` says when that is so for a text that shares nothing with the one before.
- **A full list forgets the user dictionary.** If the lemmas of a half id fill the buffer of 1450, the user dictionary
  is asked with no room left and does not go on; asked again, with the lemmas cached, it does. `FullListForgets`: the
  two answers agree if and only if the list is shorter or the user dictionary has nothing for the id. `FullListInput`
  has the lists that disagree. The decoder's theorems ask that none do (`Steady`).

## Assumptions on sizes

Stated as preconditions where they are needed, each of them a capacity of the program:

- the system trie: node counts and sons within their 8 and 16 bit fields, ids below 2^24, a son of the root for every
  full id (`DictBuilder.Room`, `Dictionary.Buildable`, `TrieWalk.AllRoots`);
- batch lookup: no layer longer than the buffer of 200 nodes (`DictTrie.Uncapped`); not needed for full ids
  (`LpiFull`) nor a lone vowel (`LpiYunmu`);
- incremental lookup: stones below 100, marks up to 600, ranges of half ids below 256;
- the decoder: match nodes below 800, stones and marks as above up to the last row that is tried (`SearchRoom`); no
  half id's lemmas fill the buffer while the user dictionary has more (`Steady`); the node pool never runs out
  (`RunPoolUse`);
- from lemma id to spelling ids: the candidates fit the buffer of 40 and their product 16 bits (`Spellable`);
- the word list: every length up to the longest occurs (`WordList.Full`);
- spellings: sorted, no two alike, in the form of `format_spelling_str`, ids below 2^11.

## Model

| member | source | states |
|---|---|---|
| UserDict.UserDict.Defragment | src/share/userdict.cpp:1511-1681 | the live entries keep their order, ids and what they read as, the dictionary and the sync queue stay the same, no flag and no gap is left, and used plus free bytes are conserved |
| UserCompact.FixupIndex | src/share/userdict.cpp:1517-1559 | the swaps bring the live rows of the three parallel lists to the front in their old order, and flag exactly the records of removed rows |
| UserCompact.Slide | src/share/userdict.cpp:1593-1665 | the records kept end up behind each other in the old order, every list points at the new starts, and nothing moves if there is no gap |
| UserDict.UserDict.GetLpis | src/share/userdict.cpp:504-609 | the items are a prefix of what a scan of all live lemmas gives, all of it below the limit, with the cache, the miss cache or neither |
| UserSearch.LocateFirstInOffsets | src/share/userdict.cpp:445-475 | the least index of the block of entries with the key, if there is one; else no entry has the key |
| UserDict.UserDict.CacheHit | src/share/userdict.cpp:1479-1492 | a hit gives the range of all entries with the key, or that there are none |
| UserCache.Load | src/share/userdict.cpp:1364-1391 | the entry with the signature nearest to the ring's head, or that no entry of the ring has it |
| UserCache.Save | src/share/userdict.cpp:1393-1416 | from the oldest on, the entries are those before and the new one behind; only a full ring loses its oldest |
| UserKeys.PrepareLocate | src/share/userdict.cpp:477-497 | the ranges of full ids and the packed initials of a query |
| UserDict.UserDict.LocateInOffsets | src/share/userdict.cpp:692-758 | finds something if and only if the range searched, a function of the state before, meets the lemma or a longer one; a stored lemma is always met |
| UserDict.UserDict.LongerLemmaFound | src/share/userdict.cpp:717-738 | in a dictionary of one longer lemma, a lemma that is not stored is met |
| UserDict.LongerLemmaHit | src/share/userdict.cpp:2055-2072 | a run: after a longer lemma has been stored, putting its beginning rescores the longer one, and the beginning is not stored |
| UserDict.UserDict.PutLemma | src/share/userdict.cpp:2055-2108 | the dictionary gains the lemma or rescores the one met, with id and score; exactly when it is the lemma itself, when it is refused, and what is queued for sync |
| UserDict.UserDict.AppendALemma | src/share/userdict.cpp:2177-2255 | a new record, sorted into the index, adds exactly this lemma under a new id |
| UserDict.UserDict.UpdateLemma | src/share/userdict.cpp:2126-2167 | only the score of the lemma met changes, and it is queued once more; succeeds if and only if something is met |
| UserDict.UpdateSaturates | src/share/userdict.cpp:2142-2154 | the new frequency for every change: the sum if the change is not negative and fits, else the maximum; the time stays unless selected |
| UserDict.ScoreRoundTrip | src/share/userdict.cpp:101-126 | unpacking a score into time and frequency and packing them again gives it back |
| UserDict.UserDict.RemoveLemma | src/share/userdict.cpp:977-991 | the dictionary loses exactly the lemma met; the sync queue stays right if and only if it was not queued twice |
| UserDict.UserDict.RemoveLemmaByOffsetIndex | src/share/userdict.cpp:947-975 | the lemma of the entry is gone, all other entries are as they were |
| UserDict.StaleEntry | src/share/userdict.cpp:2111-2123 | put, update and remove leave an entry of a removed lemma in the queue |
| UserDict.UserDict.FlushCache | src/share/userdict.cpp:993-1005 | the reloaded dictionary has the same lemmas and scores with ids by index, an empty cache and full spare room |
| UserDict.UserDict.Reclaim | src/share/userdict.cpp:1957-2011 | exactly count times ratio by hundred lemmas go; if no sift meets a tie, none of them scores above a lemma that stays |
| UserReclaim.PickLowest | src/share/userdict.cpp:1983-1999 | the pairs left in the heap are different entries, and those of the lowest scores if no sift meets a tie |
| UserReclaim.DistinctSmooth | src/share/userdict.cpp:1976-1992 | with distinct scores no sift of the whole routine meets a tie |
| UserReclaim.SiftRestores | src/share/userdict.cpp:2022-2048 | sifting permutes, and restores the heap if and only if its path meets no tie of two greater sons |
| UserReclaim.NoTies | src/share/userdict.cpp:2022-2048 | with distinct scores no tie is met |
| UserReclaim.TiesBreakTheHeap | src/share/userdict.cpp:2035-2045 | a heap below the root that sifting leaves unchanged and broken |
| MatrixSearch.MatrixSearch.Search | src/share/matrixsearch.cpp:419-478 | after any earlier searches rows, pools, accepted length and segmentation are those of the text alone; the starts tile the decoded text; where the dictionary's stacks end, and exactly when stones have leaked |
| MatrixSearch.MatrixSearch.ResetSearch | src/share/matrixsearch.cpp:242-290 | the lattice is that of the shorter text, both pools end at its last row, the dictionary's stacks end where the next row's first match node began; no other stones are left if and only if the nodes kept hold every place below |
| MatrixSearch.MatrixSearch.LeakCondition | src/share/matrixsearch.cpp:242-290 | if nothing has leaked before, rewinding leaves no other stones if and only if the next row begins with a node that has a stone, or no node behind has one |
| MatrixSearch.MatrixSearch.AddChar | src/share/matrixsearch.cpp:926-1130 | the lattice gains the row of the character, or is as before if the character is not accepted; both stacks grow by exactly the stones and marks of the row's match nodes, kept or not |
| Leak.SearchThatLeaks | src/share/matrixsearch.cpp:419-478 | a run: searching a letter and a splitter decodes the letter, and one more stone is on the stack than the match nodes hold, also after rewinding |
| MatrixSearch.MatrixSearch.ExtendDmi | src/share/matrixsearch.cpp:1401-1500 | the match node and the sorted lemmas are the answer of both dictionaries, the same from the cache as computed |
| MatrixSearch.MatrixSearch.PutCache | src/share/lpicache.cpp:55-67 | what is kept of a half id's list is what would be computed again |
| MatrixSearch.MatrixSearch.RoomFromScratch | src/share/matrixsearch.cpp:204-240 | after a full reset, whether the stacks suffice depends on the text alone |
| MatrixSearch.SegTiles | src/share/matrixsearch.cpp:1300-1393 | spelling starts rise from 0 to the decoded length, word starts from 0 to the number of spellings |
| Dictionaries.Ask | src/share/matrixsearch.cpp:1414-1476 | the two dictionaries' answer from the root or from a mile stone is that of the lemma list, older stones keep their meaning, and both stacks grow by exactly the new stone and its marks |
| Dictionaries.FullListForgets | src/share/userdict.cpp:504-513 | asked again from the cache the user dictionary answers the same if and only if the system lemmas left room before, or it has nothing |
| Dictionaries.FullListInput | src/share/userdict.cpp:504-513 | with as many lemmas of a half id as the buffer holds, the user dictionary is forgotten when they are asked for and not when they are cached |
| Lattice.ExtendMtrxNd | src/share/matrixsearch.cpp:1536-1581 | the row grows by the sorted insertion of the items up to the first that is too bad, and nothing before the row changes |
| Decoded.RunOptimal | src/share/matrixsearch.cpp:1536-1581 | a row's first node has the least total over all chains of offered words that end there, and such a chain exists |
| Decoded.RunPoolUse | src/share/matrixsearch.cpp:1101-1124 | at most one plus five nodes a character are used, within the pool for 39 characters |
| Decoder.RewindIsShorter | src/share/matrixsearch.cpp:262-288 | cutting a lattice behind row k gives the lattice of the first k characters |
| Segment.GetSplStartId | src/share/matrixsearch.cpp:1300-1393 | the backward walk, two reversals and the summing leave the forward segmentation of the best path behind the fixed part; words tile the spellings, and spellings the text if the path goes through the fixed place |
| Segment.SwapXor | src/share/matrixsearch.cpp:1357-1372 | three xor assignments swap two different places |
| Phrase.FixedWords.MergeFixedLmas | src/share/matrixsearch.cpp:1200-1298 | the words become one phrase without exactly the deleted character, spelling starts move by its length, word bounds are lowered and an empty word is gone |
| Phrase.BoundsKept | src/share/matrixsearch.cpp:1284-1296 | the new bounds are exactly the old ones, lowered behind the deleted character |
| Phrase.StartsKept | src/share/matrixsearch.cpp:1204-1212 | the new spelling starts rise, and each spelling keeps its length |
| DictBuilder.DictBuilder.ConstructSubset | src/share/dictbuilder.cpp:770-1001 | the packed nodes below a parent are the trie of the array's part: sons contiguous and rising, each lemma in exactly one node |
| DictBuilder.DictBuilder.BuildTrie | src/share/dictbuilder.cpp:585-624 | root and nodes are the trie of the whole array, and the homophone buffer holds its ids and the top lemmas |
| DictBuilder.PackIds | src/share/dictbuilder.cpp:640-645 | three bytes an id, read back as the id |
| TrieCover.CoverFinds | src/share/dicttrie.cpp:663-846 | the groups reached layer by layer hold, in order, exactly the lemmas whose ids lie in the ranges |
| DictTrie.DictTrie.TryExtend | src/share/dicttrie.cpp:598-661 | true if and only if the array has a lemma with these spelling ids and this id |
| DictTrie.DictTrie.GetLpis | src/share/dicttrie.cpp:663-846 | the items, up to the room there is, of the ids the layered search finds |
| DictTrie.LpiExact | src/share/dicttrie.cpp:663-846 | those ids are exactly the lemmas of the array in the ranges, in order, if no layer is cut |
| DictTrie.LpiFull | src/share/dicttrie.cpp:663-846 | for full ids no layer is ever cut: an id is found if and only if the array has the lemma |
| DictTrie.LpiYunmu | src/share/dicttrie.cpp:802-807 | a lone vowel finds the lemmas of its first full id only |
| DictTrie.DictTrie.ExtendDict0 | src/share/dicttrie.cpp:386-442 | the new stone stands for the groups of the first id's range, and its lemmas are given |
| DictTrie.DictTrie.ExtendFrom | src/share/dicttrie.cpp:444-596 | from a stone for some ids, a stone for one more and all their lemmas, in order, and no stone if and only if there are none; one mark for each group that goes on; older stones keep their meaning |
| DictTrie.DictTrie.ExtendAll | src/share/dicttrie.cpp:365-596 | a chain of extensions over any ids gives exactly the items of the batch lookup, and a stone for all of them |
| DictTrie.DictTrie.ResetMilestones | src/share/dicttrie.cpp:351-363 | where both stacks end; every handle below keeps its meaning |
| Dictionary.BuildAndFind | src/share/dictbuilder.cpp:504-638 | after building, a lemma is found if and only if the array has it |
| WordList.WordList.CalculateSize | src/share/dictlist.cpp:113-167 | the table entries for every length, and the buffer's size |
| WordList.WordList.FillList | src/share/dictlist.cpp:178-198 | every word lies at its place in the buffer |
| WordList.SlotLost | src/share/dictlist.cpp:136-163 | an id falls to its word's length if and only if that is the greatest or the next length occurs |
| WordList.SlotClaims | src/share/dictlist.cpp:286-308 | with all lengths, a table slot takes in an id if and only if its word has that length |
| WordList.WordList.GetLemmaStr | src/share/dictlist.cpp:286-308 | the word of every id but the last, if the buffer has room, else nothing |
| WordList.WordList.FindPosStartedByHzs | src/share/dictlist.cpp:215-231 | the first word of a length that begins with the characters, or that there is none |
| WordList.WordList.GetLemmaId | src/share/dictlist.cpp:348-361 | the least id of the word, or 0 if and only if it is not listed; the program's check of the place passes if and only if it is not the first word |
| WordList.AtStart | src/share/dictlist.cpp:356 | the place found is the start of the buffer if and only if the word is the first of the list |
| WordList.WordList.Predict | src/share/dictlist.cpp:233-284 | what follows the history in the words that go on from it, in list order, as many as there is room for, without those known before |
| CharSpellings.BuildScis | src/share/dictbuilder.cpp:699-768 | one item for every character and spelling of a lemma and no other, sorted; every lemma's characters find theirs; a write leaves the array exactly if the list overruns it |
| CharSpellings.OverrunsExactly | src/share/dictbuilder.cpp:700-728 | the check lets a list through that needs one place more if and only if every lemma has eight characters and there are just eight places a lemma |
| CharSpellings.EightOverrun | src/share/dictbuilder.cpp:700-728 | one lemma of eight characters and eight places |
| CharSpellings.CharTable.GetSplidsForHanzi | src/share/dictlist.cpp:310-346 | the character's full ids, by half id, or by compatible ones if none has it |
| CharSpellings.AllSplids | src/share/dictlist.cpp:310-346 | without a half id, exactly the spellings listed for the character |
| LemmaSplids.GetLemmaSplids | src/share/dicttrie.cpp:853-892 | spelling ids among the candidates' product that the trie has for the id; none only if the whole product has none |
| LemmaSplids.NumberBack | src/share/dicttrie.cpp:880-891 | every choice of candidates is tried: it has a number below the number of ways, and the digits of that number are the choice |
| LemmaSplids.ChoiceBack | src/share/dicttrie.cpp:880-891 | no choice is tried twice |
| LemmaSplids.StoredFound | src/share/dicttrie.cpp:853-892 | a stored lemma whose word the list gives gets exactly its own spelling ids back |
| SpellingTrie.SpellingTrie.ConstructSubset | src/share/spellingtrie.cpp:427-637 | one son for each next character, in order, each standing for its prefix with id and least score, and the ranges of the half ids below |
| SpellingTrie.SpellingTrie.Construct | src/share/spellingtrie.cpp:272-352 | the trie of the whole list with its first-letter table and the ranges of all half ids |
| SpellingTrie.SpellingTrie.FullToHalf | src/share/spellingtrie.cpp:252-258 | the half id with the longest string the spelling begins with; it stays within the table if and only if it is not asked for the id behind the last |
| SpellingTrie.SpellingTrie.HalfToFull | src/share/spellingtrie.cpp:244-250 | exactly the full ids of the spellings that begin with the half id's string |
| SpellingTrie.SpellingTrie.LastLetterLost | src/share/spellingtrie.cpp:600-609 | a first letter has full ids if and only if it was enabled at building or is not the last |
| SpellingParser.SpellingParser.SplstrToIdxs | src/share/splparser.cpp:30-141 | ids, start positions and the prefix flag of maximal munch over the list of spellings |
| SpellingParser.EndsRise | src/share/splparser.cpp:30-141 | start positions strictly rise within the text, and no id is 0 |
| SpellingParser.SpellingParser.SplstrToIdxsF | src/share/splparser.cpp:143-157 | the same with vowels as full ids, and no prefix if the last is one |
| SpellingParser.SpellingParser.GetSplidByStr | src/share/splparser.cpp:288-302 | the id of a text that is one longest stretch with only splitters behind it, else 0; the prefix flag is that of parsing for two ids, whatever the id |
| SpellingParser.SpellingParser.GetSplidByStrF | src/share/splparser.cpp:304-323 | the same, a vowel as its full id, which is never a prefix |
| SpellingParser.PreMeans | src/share/splparser.cpp:97-141 | the prefix flag is set if and only if the first stretch, or the second behind an id, leads through the trie up to the end of the text |
| SpellingParser.SpellingParser.PrintIds | src/share/userdict.cpp:1838-1856 | the spellings with spaces between, if none is too long |
| SpellingParser.PrintParse | src/share/splparser.cpp:159-286 | parsing a text of printed full ids gives them back if and only if each spelling is read as itself |
| SpellingParser.SpellingParser.ReadBack | src/share/userdict.cpp:1766-1770 | the same for the trie built, as the sync reader parses the writer's field |
| Typing.ParsedOk | src/share/matrixsearch.cpp:1008-1016 | every id the decoder gets from the parser stands for full ids of the dictionary |
| Typing.SplidAndPre | src/share/matrixsearch.cpp:1008-1016 | the parser's two answers for a text are those of the world |
| Typing.WorldSpeaks | src/share/matrixsearch.cpp:1008-1016 | parser, both dictionaries and any sort routine together are a world the decoder's theorems speak of, with the parser's id and prefix flag for every text |
| SpellingTable.GetOddNext | src/share/spellingtable.cpp:44-65 | terminates, with the least prime not below the value |
| SpellingTable.SpellingTable.InitTable | src/share/spellingtable.cpp:108-135 | an empty table of the least prime size that is large enough |
| SpellingTable.SpellingTable.PutSpelling | src/share/spellingtable.cpp:137-183 | the map of frequencies gains the frequency; refused only if unsupported, frozen, or every slot probed has another spelling, which but for sizes 3 and 41 means the table is full |
| SpellingTable.SpellingTable.Contain | src/share/spellingtable.cpp:185-215 | true if and only if the map has the spelling and the table is not frozen |
| SpellingTable.ThreeSlotsTurnAway | src/share/spellingtable.cpp:92-96 | a table of three slots with two free that turns a spelling away |
| Primes.VisitsEverySlot | src/share/spellingtable.cpp:92-96 | probing visits every slot of a prime table if and only if its size is neither 3 nor 41 |

## Left out

- The input method shell, candidate and composing views, key handling: user interface over libraries that are not part
  of this model.
- Files and threads: loading, saving, write-back with its dirty states, mutexes; `load` is modelled as the reloading
  that `flush_cache` brings about.
- Clocks and floating point: times and psb values are parameters, scores are integers; score conversion
  (`translate_score`), spelling scores and the n-gram training are not modelled.
- `total_nfreq` and the order of the predict list: the code subtracts packed scores and inserts by the wrong list;
  only that the predict list stays a permutation of the index is kept.
- Predicting from the user dictionary, merging predictions, the candidate list, choosing a candidate, cancelling a
  choice, deleting while composing: the decoder is modelled with nothing fixed.
- UserDict.UserDict.Reclaim: needs that there are no earlier tombstones and that the ratio asks for at least one
  lemma; the ratio 100 is an assertion in the program.
- UserDict.UserDict.Defragment: the two first scans test the bound before they read the entry, where the program reads
  the entry first; the caches stay as they are, as in the program.
- UserDict.UserDict.GetLpis: a call that stops at its limit may leave a cache entry that is not complete; the contract
  says the caches stay right only below the limit.
- MatrixSearch.MatrixSearch.Search: the answers of the user dictionary are a function of the spelling ids, fixed while
  the decoder lives; `SearchRoom` is needed; the extension by components and fixed words are not modelled.
- DictTrie.DictTrie.ExtendFrom: one method for the two extension routines, which differ in the layer they read; the
  stone of a root extension is pushed before its lemmas are filled in, which does not show.
- Phrase.FixedWords.MergeFixedLmas: for fixed words without a composing phrase or a composing phrase alone.
- SpellingTable.SpellingTable.PutSpelling: spellings are not empty and not longer than the table keeps; `arrange`,
  which sorts and freezes the table, is not modelled.
- SpellingTrie.SpellingTrie.Construct: the list is sorted already and nodes own their sons as values, so the sharing
  of node arrays is not captured; the table of finals is left out.
- SpellingTrie.SpellingTrie.FullToHalf: what the entry behind the table gives is not modelled.
- CharSpellings.BuildScis: sorting is a parameter with the contract of `qsort`; nothing is said of the array after a
  write behind its end.
- WordList.WordList.GetLemmaId: excludes the empty word, for which the program picks a comparison before the first.
- WordList.WordList.GetLemmaStr: for lists with all word lengths; `SlotLost` says which ids fall to a wrong length
  otherwise.
- Segment.GetSplStartId: the closing search for the last fixed position is left out; with nothing fixed it finds none.
- MatrixSearch.MatrixSearch.ResetSearch: with nothing fixed, and without clearing of the step or the reset of the
  phrase.
- WordList.WordList.Predict: prior items are compared by their whole text.
- Words, spellings and characters contain no NUL.
- `get_top_lemmas`, reading the raw lists, `get_splids_parallel` and `match_dmi`.
