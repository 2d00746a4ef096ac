# Verification of the search engine, its segmenter and its concurrency protocols

This Dafny project models the parts of the repository whose correctness is not visible from reading one function, and
proves what they promise.

- **Segmentation** (`Unicode`, `StringUtil`, `Trie`, `DictTrie`, `PreFilter`, `MPSegment`, `HMMSegment`, `MixSegment`,
  `QuerySegment`, `KeywordExtractor`). Both dynamic programs are optimal exactly where the clamp at `MIN_DOUBLE` leaves
  them, and the bound on the weights under which that is always so is proved exact. The heap trie refines a finite map.
  Across all stages no byte of a sentence is lost.
- **Concurrency** (`BoundedQueue`, `BoundedBlockingQueue`, `ThreadPool`, `ThreadPoolStop`, `ThreadPoolStuck`, `ForkJoin`,
  `ForkJoinOrder`, `ForkJoinWakeups`, `ForkJoinProgress`, `ForkJoinKnot`, `CallTree`, `ForkJoinSort`, `ForkJoinSortProgress`,
  `Pipeline`, `PipelineEnd`). Each protocol is a system of steps, one for each critical section; its invariants hold in every state of
  every run, with spurious wakeups. Shutdown is exact and bounded, deadlocks of joins are characterised, and the parallel sort
  sorts under every interleaving.
- **Search** (`Index`, `Searcher`, `Sorting`, `SearchEngine`). The inverted index and the merge answer as a scan of all
  documents would, and with the segmentation as cutter that goes from the bytes of a file to ranked answers.
- **Page maps** (`PageMap`). Three radix trees refine one map and agree.
- **Arithmetic** (`Md5`, `Md5Operations`, `Md5Example`, `IcmpHeader`). The block transform is that of RFC 1321 and digests do
  not depend on chunking; the checksum verifies, with the exact exception.

Conventions: a loop of the source is a loop here, proved against a specification function, and the properties are lemmas
about that function. Fixed-width arithmetic is written out with `%`; bytes, runes and words are bounded integers, doubles
are reals. `Index` and `Searcher` hold for any word cutter, and `SearchEngine` gives them the query segmentation. `Sorting`
stands for `std::sort` and `std::partial_sort` and promises a permutation in non-increasing order, so the order of equal
weights is open. Objects that the source shares by pointer are objects here.

Where the code promises less than one would expect, it is kept as it is and the exact condition is proved:
`Unicode32ToUtf8` does not encode plane 16; the clamp at `MIN_DOUBLE` can cost both segmenters the best result;
`compute_checksum` loses carries of bodies beyond 2^32; `digestString` cuts lengths to 32 bits; a chunk of more than
2^32 - 64 bytes can make `Update` read past its end; a saved page comes back only without separators and newlines in its
fields and with some content; and closures that call `Add` can bring the thread pool to a standstill. A rune that the model
does not know makes the rest of its range fall apart into single runes. The shipped model gives impossible transitions the
weight `MIN_DOUBLE`, so what covers it is `ReachableScoreGivesBestPath`, not the bound of `BestPathExactly`.

For joins of the fork/join pool there are three statements: joins never deadlock if no function joins a group whose creator
began before it did; a pool with a pending join that cannot get on has a knot of joins that wait for one another; and the joins
of a knot never return.

Verify with `dafny verify dfyconfig.toml`.

## Model

| member | source | states |
|---|---|---|
| `Unicode.DecodeUTF8RunesInString` | Boost_Searcher/cppjieba/Unicode.hpp:142-157 | succeeds exactly on the byte strings that decode, with their runes, byte offsets and rune numbers; clears the runes on failure |
| `Unicode.RuneInNumbers` | Boost_Searcher/cppjieba/Unicode.hpp:87-128 | which first bytes lead to runes of one, two, three and four bytes, and the value of the rune in terms of the low bits of its bytes; anything else has length 0 |
| `Unicode.DecodeCovers` | Boost_Searcher/cppjieba/Unicode.hpp:142-157 | the runes of a decoded string cover its bytes without gap or overlap and are numbered consecutively |
| `Unicode.WordOfRange` | Boost_Searcher/cppjieba/Unicode.hpp:193-198 | the 32-bit lengths of a word do not wrap for strings below 2^32 bytes: the word is the slice of the sentence from its first to past its last rune |
| `Unicode.LongWordIsEmpty` | Boost_Searcher/cppjieba/Unicode.hpp:193-198 | a word of exactly 2^32 bytes would come out empty |
| `Unicode.GetWordsFromWordRanges` | Boost_Searcher/cppjieba/Unicode.hpp:206-210 | one word for each range, in order |
| `Unicode.TilingWords` | Boost_Searcher/cppjieba/Unicode.hpp:193-210 | words read off a tiling of the runes concatenate to exactly the bytes under it, and their rune counts add up |
| `Unicode.TilingOffsets` | Boost_Searcher/cppjieba/Unicode.hpp:193-198 | each word of a tiling records how many bytes and runes come before it, and is not empty |
| `StringUtil.Utf8ToUnicode32` | Boost_Searcher/limonp/StringUtil.hpp:205-258 | accepts exactly the decodable strings; on failure it has read the runes before the first bad one |
| `StringUtil.Utf8ToUnicode` | Boost_Searcher/limonp/StringUtil.hpp:169-198 | accepts exactly the decodable strings without a four-byte rune, and reads the same runes as the 32-bit decoder |
| `StringUtil.Unit16Of3` | Boost_Searcher/limonp/StringUtil.hpp:187-192 | assembling a high and a low byte gives the same value as shifting in six bits at a time |
| `StringUtil.Unicode32ToUtf8` | Boost_Searcher/limonp/StringUtil.hpp:260-283 | writes the encoding of every rune, in order |
| `StringUtil.UnicodeToUtf8` | Boost_Searcher/limonp/StringUtil.hpp:285-303 | writes the same encoding for 16-bit units |
| `StringUtil.DecodeEncodeRune` | Boost_Searcher/limonp/StringUtil.hpp:205-283 | an encoded rune followed by anything decodes to its low twenty bits and its own length |
| `StringUtil.DecodeEncode` | Boost_Searcher/limonp/StringUtil.hpp:205-283 | every encoded string decodes, each rune to its low twenty bits |
| `StringUtil.RoundTripExactly` | Boost_Searcher/limonp/StringUtil.hpp:260-283 | decoding gives the runes back if and only if all are below 0x100000: the mask 0x03 of the four-byte lead cuts off plane 16 |
| `StringUtil.LastUnicodeCharacterIsLost` | Boost_Searcher/limonp/StringUtil.hpp:275-279 | U+10FFFF comes back as U+FFFF |
| `StringUtil.ReEncodesRune` | Boost_Searcher/limonp/StringUtil.hpp:205-283 | encoding the first rune of a string again gives its bytes back exactly if they are in shortest form, with lead and continuation bytes as in section 4 of RFC 3629 |
| `StringUtil.EncodeDecodeExactly` | Boost_Searcher/limonp/StringUtil.hpp:205-283 | encoding a decoded string gives it back if and only if every rune of it was in that form (surrogates included, plane 16 excluded) |
| `StringUtil.EncodedIsCanonical` | Boost_Searcher/limonp/StringUtil.hpp:260-283 | encoded runes below 0x100000 are always in that form, so encoder and decoder are inverse to each other there |
| `StringUtil.RoundTrip16` | Boost_Searcher/limonp/StringUtil.hpp:169-303 | 16-bit units always come back |
| `StringUtil.DecodersAgree` | Boost_Searcher/cppjieba/Unicode.hpp:142-157 | the decoder that keeps offsets and the one that does not accept the same strings and read the same runes |
| `StringUtil.DecodeBothWays` | Boost_Searcher/limonp/StringUtil.hpp:205-258 | run on one string below 2^32 bytes, the two 32-bit decoders give the same verdict and, if it is good, the same runes |
| `Trie.Trie.InsertNode` | Boost_Searcher/cppjieba/Trie.hpp:120-143 | the trie keeps its tree shape and its finite map gains precisely this key; the empty key is ignored |
| `Trie.Trie.Create` | Boost_Searcher/cppjieba/Trie.hpp:172-181 | a trie built from keys and values holds what inserting them one by one leaves; nothing if one of the vectors is empty |
| `Trie.InsertAllKeepsLast` | Boost_Searcher/cppjieba/Trie.hpp:172-181 | after any insertions a key is present exactly if it was inserted and is not empty, with the value inserted last |
| `Trie.LastInsertionWins` | Boost_Searcher/cppjieba/Trie.hpp:120-143 | a key that is not empty and is not inserted again has the value of this insertion |
| `Trie.Trie.Find` | Boost_Searcher/cppjieba/Trie.hpp:61-79 | exact search is look-up in the finite map: precisely this key, not a prefix of another |
| `Trie.Trie.LongerNexts` | Boost_Searcher/cppjieba/Trie.hpp:104-116 | the early exits of the inner loop lose no longer word |
| `Trie.Trie.NextsAt` | Boost_Searcher/cppjieba/Trie.hpp:93-116 | the edges at one position |
| `Trie.Trie.FindDag` | Boost_Searcher/cppjieba/Trie.hpp:81-118 | the word graph has at each position the edges that the finite map demands |
| `Trie.EdgesExact` | Boost_Searcher/cppjieba/Trie.hpp:93-116 | those edges are the single rune and all longer dictionary words up to the length limit, nothing else, in strictly increasing length |
| `Trie.EdgesAreWords` | Boost_Searcher/cppjieba/Trie.hpp:93-116 | an edge leads from i to j exactly for j = i, and for every dictionary word of at most the length limit, and carries what the dictionary has there |
| `DictTrie.InsertAllSpells` | Boost_Searcher/cppjieba/DictTrie.hpp:179-189 | in a trie made from dictionary units every unit is filed under the word it spells |
| `DictTrie.DictTrie.constructor` | Boost_Searcher/cppjieba/DictTrie.hpp:179-189 | the dictionary is the last unit given for each non-empty word, and every unit spells its path |
| `DictTrie.DictTrie.InsertUserWord` | Boost_Searcher/cppjieba/DictTrie.hpp:41-49 | fails exactly if the word does not decode and then changes nothing; otherwise adds the word with the default weight and keeps the spelling invariant |
| `DictTrie.DictTrie.Find` | Boost_Searcher/cppjieba/DictTrie.hpp:71-73 | look-up in the dictionary |
| `MPSegment.CalcDP` | Boost_Searcher/cppjieba/MPSegment.hpp:80-108 | filling the table in place from the last rune to the first gives every entry its recursive value and leaves the graph alone |
| `MPSegment.RelaxedIsMaximum` | Boost_Searcher/cppjieba/MPSegment.hpp:86-106 | an entry is the greatest of the clamp and its edges, attained by the recorded unit unless it is the clamp |
| `MPSegment.RelaxedTakesFirst` | Boost_Searcher/cppjieba/MPSegment.hpp:102-105 | of equally good edges the first, that is the shortest, is taken |
| `MPSegment.CutsExactly` | Boost_Searcher/cppjieba/MPSegment.hpp:109-127 | what counts as a cut, word by word: no gap, no overlap, each word one rune or in the dictionary within the length limit |
| `MPSegment.CutWeightIsTotal` | Boost_Searcher/cppjieba/MPSegment.hpp:93-101 | a cut weighs the sum of its words, a single rune outside the dictionary the least weight |
| `MPSegment.ChoiceFits` | Boost_Searcher/cppjieba/MPSegment.hpp:109-127 | the unit recorded for a position spells the text there, so the jump by its length lands where its edge ends |
| `MPSegment.TableIsUpperBound` | Boost_Searcher/cppjieba/MPSegment.hpp:80-108 | no tiling by dictionary words and single runes weighs more than the table says, clamped or not |
| `MPSegment.CutAttainsTable` | Boost_Searcher/cppjieba/MPSegment.hpp:80-127 | where no chosen entry was clamped, the reconstructed cut weighs what the table says |
| `MPSegment.CutIsBest` | Boost_Searcher/cppjieba/MPSegment.hpp:80-127 | then it is a tiling of greatest total weight |
| `MPSegment.TableIsExactExactly` | Boost_Searcher/cppjieba/MPSegment.hpp:80-108 | the whole table holds the true maxima if and only if every suffix has some tiling that weighs at least the clamp |
| `MPSegment.ModerateWeightsGiveBestCut` | Boost_Searcher/cppjieba/MPSegment.hpp:80-127 | if n - 1 times the least weight stays above the clamp, a text of n runes is cut best, even where the first entry is clamped |
| `MPSegment.ClampLosesABetterCut` | Boost_Searcher/cppjieba/MPSegment.hpp:102-105 | for every length and every least weight beyond that bound there is a dictionary whose word is passed over for two lighter single runes |
| `MPSegment.BestCutExactly` | Boost_Searcher/cppjieba/MPSegment.hpp:80-127 | so the bound is exact: all texts of n runes are cut best under all dictionaries within it if and only if it holds |
| `MPSegment.MPSegment.CutByDag` | Boost_Searcher/cppjieba/MPSegment.hpp:109-127 | pushes the cut that the table spells out |
| `MPSegment.MPSegment.Cut` | Boost_Searcher/cppjieba/MPSegment.hpp:55-66 | graph, table and reconstruction together give the cut that the theorems are about |
| `MPSegment.MpCutTiles` | Boost_Searcher/cppjieba/MPSegment.hpp:109-127 | whatever the weights, the words cover the range in order and none is empty |
| `MPSegment.MpCutIsBest` | Boost_Searcher/cppjieba/MPSegment.hpp:55-66 | under the bound of `BestCutExactly` the words pushed for a range of a text are a cut of greatest weight of that range, moved to where it starts |
| `HMMSegment.Viterbi` | Boost_Searcher/cppjieba/HMMSegment.hpp:130-182 | the two row-major tables, filled in place and read back, give the state sequence of the recurrence |
| `HMMSegment.FillEntry` | Boost_Searcher/cppjieba/HMMSegment.hpp:153-165 | filling an entry gives it its value and disturbs no entry filled before |
| `HMMSegment.CellIsClampedMaximum` | Boost_Searcher/cppjieba/HMMSegment.hpp:149-166 | an entry is the greatest of the clamp and its four predecessors; its path attains it, or is E at the clamp |
| `HMMSegment.FirstPredecessorWins` | Boost_Searcher/cppjieba/HMMSegment.hpp:157-164 | of equally good predecessors the first is recorded |
| `HMMSegment.TableIsUpperBound` | Boost_Searcher/cppjieba/HMMSegment.hpp:149-166 | no state sequence scores more than the entry it ends in |
| `HMMSegment.BackAttainsTable` | Boost_Searcher/cppjieba/HMMSegment.hpp:168-181 | following the paths back over unclamped entries gives a sequence that scores what the table says |
| `HMMSegment.StatusIsBest` | Boost_Searcher/cppjieba/HMMSegment.hpp:130-182 | whatever the model, a result read off unclamped entries is of highest score among all sequences that end in E or S |
| `HMMSegment.LivelyTableGivesBestPath` | Boost_Searcher/cppjieba/HMMSegment.hpp:130-182 | if every entry has a predecessor that lifts it above the clamp, the result is optimal |
| `HMMSegment.ReachableScoreGivesBestPath` | Boost_Searcher/cppjieba/HMMSegment.hpp:130-182 | with log-probabilities one sequence that scores above the clamp is enough for the result to be optimal |
| `HMMSegment.FinalWeightIsExactExactly` | Boost_Searcher/cppjieba/HMMSegment.hpp:168-175 | with log-probabilities the final weight of two or more runes is the true maximum if and only if some sequence scores at least the clamp |
| `HMMSegment.UnknownRuneClampsTheRest` | Boost_Searcher/cppjieba/HMMSegment.hpp:153-164 | with log-probabilities, from a rune that no state emits on, unless it is the first, every entry is the clamp with predecessor E |
| `HMMSegment.UnknownRuneForcesE` | Boost_Searcher/cppjieba/HMMSegment.hpp:154-181 | hence every decoded state from the rune before it to the end is E, whatever the model knows of the other runes |
| `HMMSegment.UnknownRuneCutsTheRest` | Boost_Searcher/cppjieba/HMMSegment.hpp:114-128 | and that rune and every rune behind it in the range are words of their own |
| `HMMSegment.HangyanIsOneWord` | Boost_Searcher/cppjieba/HMMSegment.hpp:114-181 | with the weights of the shipped model the runes U+676D U+7814 are decoded as B, E with log-probability -17.796..., and cut as one word |
| `HMMSegment.UnknownRuneLosesTheBestPath` | Boost_Searcher/cppjieba/HMMSegment.hpp:154-156 | the witness that optimality is lost, with the start and transition weights of the shipped model: with a rune that no state emits the result is E, E although S, S scores higher by more than 3.14e100 |
| `HMMSegment.ModerateWeightsGiveBestPath` | Boost_Searcher/cppjieba/HMMSegment.hpp:130-182 | if 2n times the least weight is not below the clamp, n runes are decoded best |
| `HMMSegment.ClampLosesTheBestPath` | Boost_Searcher/cppjieba/HMMSegment.hpp:154-164 | beyond that bound there is for every length a model and a text that are decoded wrongly |
| `HMMSegment.BestPathExactly` | Boost_Searcher/cppjieba/HMMSegment.hpp:130-182 | so the bound is exact: all texts of n >= 2 known runes are decoded best under all models within it if and only if it holds |
| `HMMSegment.SequentialLetterRule` | Boost_Searcher/cppjieba/HMMSegment.hpp:79-95 | the longest run of letters and digits, if the first rune is a letter; otherwise nothing |
| `HMMSegment.NumbersRule` | Boost_Searcher/cppjieba/HMMSegment.hpp:97-113 | the longest run of digits and points, if the first rune is a digit; otherwise nothing |
| `HMMSegment.HMMSegment.InternalCut` | Boost_Searcher/cppjieba/HMMSegment.hpp:114-128 | a word ends at every state E and S |
| `HMMSegment.DecodedTiles` | Boost_Searcher/cppjieba/HMMSegment.hpp:114-128 | those words cover the range, because the last state is odd |
| `HMMSegment.DecodedExactly` | Boost_Searcher/cppjieba/HMMSegment.hpp:114-128 | a word of a decoded range ends at a state E or S, holds no other such state, and begins behind one; every such stretch is a word |
| `HMMSegment.HMMSegment.WordEnd` | Boost_Searcher/cppjieba/HMMSegment.hpp:55-65 | letters first, then numbers, then the single rune |
| `HMMSegment.HMMSegment.Cut` | Boost_Searcher/cppjieba/HMMSegment.hpp:46-76 | the cursor loop gives the cut that the next two rows are about |
| `HMMSegment.HmmCutTiles` | Boost_Searcher/cppjieba/HMMSegment.hpp:46-128 | for any model, however clamped, the words cover the range in order and none is empty |
| `HMMSegment.HmmCutUnmixed` | Boost_Searcher/cppjieba/HMMSegment.hpp:46-128 | no word mixes runes below 0x80 with others |
| `HMMSegment.AsciiWords` | Boost_Searcher/cppjieba/HMMSegment.hpp:46-113 | in the whole cut, a word that begins with a letter is the longest run of letters and digits, one that begins with a digit the longest run of digits and points, any other rune below 0x80 a word of its own |
| `HMMSegment.DecodedWords` | Boost_Searcher/cppjieba/HMMSegment.hpp:46-128 | and every maximal run of other runes is cut as it is decoded |
| `PreFilter.PreFilter.constructor` | Boost_Searcher/cppjieba/PreFilter.hpp:17-24 | a sentence that does not decode is treated as empty |
| `PreFilter.PreFilter.Next` | Boost_Searcher/cppjieba/PreFilter.hpp:30-45 | the next range: one separator, or all runes up to the next separator or the end |
| `PreFilter.RangeEndExactly` | Boost_Searcher/cppjieba/PreFilter.hpp:30-45 | the end of a range is the only place with these properties: one separator, or runes that are none up to the next separator or the end of the sentence |
| `PreFilter.LongRangeHoldsNoSymbol` | Boost_Searcher/cppjieba/PreFilter.hpp:30-45 | a range of two or more runes holds no separator |
| `MixSegment.MixSegment.Cut` | Boost_Searcher/cppjieba/MixSegment.hpp:46-86 | with the model, every maximal run of loose single runes is replaced by its model cut and all else is kept; without it, the dictionary cut |
| `MixSegment.MixSegment.Recut` | Boost_Searcher/cppjieba/MixSegment.hpp:56-85 | the index loop with its jumps over the run `[i, j)` |
| `MixSegment.MixCutTiles` | Boost_Searcher/cppjieba/MixSegment.hpp:46-86 | with or without the model, the words cover the range in order and none is empty |
| `MixSegment.MixCutOrigin` | Boost_Searcher/cppjieba/MixSegment.hpp:58-78 | every dictionary word and every listed single rune survives, and a new word covers only loose single runes |
| `MixSegment.MixCutWithoutModel` | Boost_Searcher/cppjieba/MixSegment.hpp:46-51 | without the model the result is the dictionary cut with words of at most 512 runes |
| `MixSegment.MixCutWithModel` | Boost_Searcher/cppjieba/MixSegment.hpp:52-86 | with the model, a word over a maximal run of loose single runes is in the result if and only if it is in the model cut of that run |
| `MixSegment.MixTextTiles` | Boost_Searcher/cppjieba/MixSegment.hpp:32-45 | the words of all ranges together cover the whole sentence |
| `MixSegment.MixTextOfRange` | Boost_Searcher/cppjieba/MixSegment.hpp:32-45 | a word that begins in a range of the sentence is in the result exactly if it is in the cut of that range |
| `MixSegment.WordsHoldNoSymbol` | Boost_Searcher/cppjieba/MixSegment.hpp:32-45 | no word of two or more runes holds a separator |
| `MixSegment.MixSegment.CutRanges` | Boost_Searcher/cppjieba/MixSegment.hpp:32-40 | the loop over the ranges |
| `MixSegment.MixSegment.CutSentence` | Boost_Searcher/cppjieba/MixSegment.hpp:32-45 | segmentation is lossless: the words of a sentence below 2^32 bytes that decodes concatenate to it, with right byte and rune offsets; one that does not decode has no words |
| `MixSegment.TilingIsLossless` | Boost_Searcher/cppjieba/MixSegment.hpp:32-45 | tilings give lossless words |
| `MixSegment.LosslessMeans` | Boost_Searcher/cppjieba/MixSegment.hpp:32-45 | so the words are pieces of the sentence, none empty, each beginning where the one before it ends, in bytes and in runes, from the first to the last |
| `QuerySegment.QuerySegment.Cut` | Boost_Searcher/cppjieba/QuerySegment.hpp:48-73 | the mixed cut with the extras of each word in front of it |
| `QuerySegment.QuerySegment.GramsOf` | Boost_Searcher/cppjieba/QuerySegment.hpp:56-61 | all dictionary words of n runes inside a word, from left to right |
| `QuerySegment.ExtrasExact` | Boost_Searcher/cppjieba/QuerySegment.hpp:55-70 | the extras of a word are exactly the dictionary words of two or three runes strictly inside it |
| `QuerySegment.QueryCutExact` | Boost_Searcher/cppjieba/QuerySegment.hpp:48-73 | the result holds the mixed words, all those extras, and nothing else |
| `QuerySegment.QueryTextOfRange` | Boost_Searcher/cppjieba/QuerySegment.hpp:35-47 | a word that begins in a range of the sentence is in the result exactly if it is in the query cut of that range |
| `QuerySegment.QueryCutDistinct` | Boost_Searcher/cppjieba/QuerySegment.hpp:48-73 | no range appears twice in the result |
| `QuerySegment.QueryTextDistinct` | Boost_Searcher/cppjieba/QuerySegment.hpp:35-47 | nor in the result for a whole sentence |
| `QuerySegment.DroppingExtrasGivesMix` | Boost_Searcher/cppjieba/QuerySegment.hpp:48-73 | dropping the extras leaves the mixed cut, in order |
| `QuerySegment.QueryWordsHoldNoSymbol` | Boost_Searcher/cppjieba/QuerySegment.hpp:35-73 | no word of two or more runes, extra or not, holds a separator |
| `QuerySegment.QuerySegment.CutRanges` | Boost_Searcher/cppjieba/QuerySegment.hpp:35-41 | the loop over the ranges |
| `QuerySegment.QuerySegment.CutSentence` | Boost_Searcher/cppjieba/QuerySegment.hpp:35-47 | every word is the part of the sentence under its range |
| `KeywordExtractor.OffsetsAreOccurrences` | Boost_Searcher/cppjieba/KeywordExtractor.hpp:61-70 | the recorded offsets of a word are exactly the positions at which the segmentation puts it, each once and in increasing order, and the word can be read from the sentence there |
| `KeywordExtractor.CountWords` | Boost_Searcher/cppjieba/KeywordExtractor.hpp:60-70 | every word that is not single and not a stop word is in the map with all its offsets and their number as weight, and nothing else is |
| `KeywordExtractor.SingleExactly` | Boost_Searcher/cppjieba/Unicode.hpp:176-179 | of what decodes, the single words are those of at most one rune |
| `KeywordExtractor.WeightInNumbers` | Boost_Searcher/cppjieba/KeywordExtractor.hpp:78-87 | the weight of a word is the number of places at which the segmentation puts it times its inverse document frequency, or times the average if it has none |
| `KeywordExtractor.Weigh` | Boost_Searcher/cppjieba/KeywordExtractor.hpp:78-87 | each entry becomes one keyword, weighted by count times inverse document frequency, or the average for unknown words |
| `KeywordExtractor.FirstAreBest` | Boost_Searcher/cppjieba/KeywordExtractor.hpp:88-90 | the first topN of the sorted keywords are distinct, in non-increasing order, and a keyword is left out only for a full list of keywords at least as heavy |
| `KeywordExtractor.BestInNumbers` | Boost_Searcher/cppjieba/KeywordExtractor.hpp:78-91 | what the answer is: distinct eligible words with these weights in non-increasing order, at most topN, and none missing that outweighs one of them or for which there is room |
| `KeywordExtractor.KeywordExtractor.Extract` | Boost_Searcher/cppjieba/KeywordExtractor.hpp:56-91 | the runtime check of the summed lengths fails exactly if the sentence does not decode, and then the list of the caller is untouched; otherwise the answer is the best topN keywords |
| `BoundedQueue.BoundedQueue.constructor` | Boost_Searcher/limonp/include/limonp/BoundedQueue.hpp:13-18 | an empty queue of positive capacity |
| `BoundedQueue.BoundedQueue.Push` | Boost_Searcher/limonp/include/limonp/BoundedQueue.hpp:40-45 | appends to the queue that the ring represents, wrapping around |
| `BoundedQueue.BoundedQueue.Pop` | Boost_Searcher/limonp/include/limonp/BoundedQueue.hpp:47-53 | removes and returns the oldest element |
| `BoundedQueue.BoundedQueue.Empty` | Boost_Searcher/limonp/include/limonp/BoundedQueue.hpp:27-29 | true exactly for the empty queue |
| `BoundedQueue.BoundedQueue.Full` | Boost_Searcher/limonp/include/limonp/BoundedQueue.hpp:30-32 | true exactly for a queue as long as its capacity |
| `BoundedQueue.BoundedQueue.Size` | Boost_Searcher/limonp/include/limonp/BoundedQueue.hpp:33-35 | the length of the represented queue |
| `BoundedQueue.BoundedQueue.Clear` | Boost_Searcher/limonp/include/limonp/BoundedQueue.hpp:22-26 | empties the queue |
| `BoundedBlockingQueue.StepKeepsInv` | Boost_Searcher/limonp/include/limonp/BoundedBlockingQueue.hpp:18-37 | every critical section and every spurious wakeup keeps: contents are what was pushed and not popped, within capacity; while a consumer sleeps there are no more elements than woken consumers, while a producer sleeps no more free slots than woken producers |
| `BoundedBlockingQueue.EveryStateIsSafe` | Boost_Searcher/limonp/include/limonp/BoundedBlockingQueue.hpp:18-37 | the invariant holds in every state of every interleaving of any number of threads |
| `BoundedBlockingQueue.FirstInFirstOut` | Boost_Searcher/limonp/include/limonp/BoundedBlockingQueue.hpp:18-37 | elements come out in the order in which they went in; none is lost, made up or pushed beyond capacity |
| `BoundedBlockingQueue.NeverAllAsleep` | Boost_Searcher/limonp/include/limonp/BoundedBlockingQueue.hpp:18-37 | with nobody woken, a consumer sleeps only on an empty queue and a producer only on a full one, so never both |
| `ThreadPool.StepKeepsInv` | Boost_Searcher/limonp/include/limonp/ThreadPool.hpp:24-75 | every step of workers, adders, closures that add closures and `Stop` keeps: NULLs come last, ended workers equal popped NULLs, popped closures are run or in hand |
| `ThreadPool.EveryStateIsSafe` | Boost_Searcher/limonp/include/limonp/ThreadPool.hpp:24-75 | that invariant holds in every reachable state |
| `ThreadPool.NothingLostBefore` | Boost_Searcher/limonp/include/limonp/ThreadPool.hpp:24-39 | while the pool serves, every added closure is queued, in hand or run, with its multiplicity |
| `ThreadPool.ShutdownIsExact` | Boost_Searcher/limonp/include/limonp/ThreadPool.hpp:61-70 | once `Stop` has returned the queue is empty, every worker has ended after exactly one NULL, and the closures run are the closures added, by running closures as well, each exactly as often |
| `ThreadPool.StopNeverHangs` | Boost_Searcher/limonp/include/limonp/ThreadPool.hpp:61-70 | until `Stop` has returned some thread can always take a step |
| `ThreadPool.NothingElseAfterStop` | Boost_Searcher/limonp/include/limonp/ThreadPool.hpp:61-70 | once `threads_` is cleared no thread but the owner can take a step, and the owner only goes through an empty `Stop` |
| `ThreadPool.StoppedForGood` | Boost_Searcher/limonp/include/limonp/ThreadPool.hpp:52-70 | after a `Stop` has returned nothing but the position of the owner ever changes, under every interleaving and however often `Stop` is called |
| `ThreadPool.SecondStopDoesNothing` | Boost_Searcher/limonp/include/limonp/ThreadPool.hpp:52-70 | whenever another `Stop` has returned, the pool is as it was after the first |
| `ThreadPoolStop.ProgressLowersRank` | Boost_Searcher/limonp/include/limonp/ThreadPool.hpp:24-70 | during `Stop` every step but a spurious wakeup lowers a rank of the state |
| `ThreadPoolStop.StopIsBounded` | Boost_Searcher/limonp/include/limonp/ThreadPool.hpp:61-70 | so `Stop` takes at most as many steps, of all threads together, as the rank, and two more for each spurious wakeup |
| `ThreadPoolStop.RankBound` | Boost_Searcher/limonp/include/limonp/ThreadPool.hpp:61-70 | the rank is below (7n + 3)(n + 2) for n workers |
| `ThreadPoolStuck.StuckExactly` | Boost_Searcher/limonp/include/limonp/ThreadPool.hpp:24-75 | in every reachable state no thread can take a step if and only if every thread waits in `Add` for room; then every worker runs a closure |
| `ThreadPoolStuck.NeverStuckOtherwise` | Boost_Searcher/limonp/include/limonp/ThreadPool.hpp:24-75 | so as long as one worker is not waiting in `Add` some thread can take a step |
| `ThreadPoolStuck.AddingClosureCanDeadlock` | Boost_Searcher/limonp/include/limonp/ThreadPool.hpp:72-75 | a run of a pool with one worker whose closure calls `Add` on a full queue comes to such a standstill |
| `ForkJoin.StepKeepsAccounts` | Boost_Searcher/data/input/boost_asio/example/cpp11/executors/fork_join.cpp:72-145 | every critical section keeps the accounts below, with nested forks, inlined functions, borrowed threads and exceptions |
| `ForkJoin.EveryStateAccounts` | Boost_Searcher/data/input/boost_asio/example/cpp11/executors/fork_join.cpp:72-145 | in every reachable state a group's counter is its queued plus its running functions, and the use count is one for the unstopped pool plus one for each group with work |
| `ForkJoin.JoinReturnsWhenDone` | Boost_Searcher/data/input/boost_asio/example/cpp11/executors/fork_join.cpp:192-198 | `join` returns only when its group has nothing queued and nothing running |
| `ForkJoin.ThreadExitsWhenAllDone` | Boost_Searcher/data/input/boost_asio/example/cpp11/executors/fork_join.cpp:35-42 | a pool thread leaves its loop only after the stop, with an empty queue and no function running |
| `ForkJoin.ThreadEndsInNoOtherWay` | Boost_Searcher/data/input/boost_asio/example/cpp11/executors/fork_join.cpp:35-42 | in any run, by whatever step, a pool thread ends only then |
| `ForkJoin.RunningGroupHasWork` | Boost_Searcher/data/input/boost_asio/example/cpp11/executors/fork_join.cpp:110-117 | the counters that a finishing function decrements are positive |
| `ForkJoin.CountersStayInRange` | Boost_Searcher/data/input/boost_asio/example/cpp11/executors/fork_join.cpp:103-117 | no counter underflows |
| `ForkJoinOrder.FirstQueuedFirstRun` | Boost_Searcher/data/input/boost_asio/example/cpp11/executors/fork_join.cpp:72-91 | in every run functions are taken from the queue in the order in which they were queued, none twice and none lost |
| `ForkJoinOrder.ForksExactly` | Boost_Searcher/data/input/boost_asio/example/cpp11/executors/fork_join.cpp:121-137 | forking runs the function at once if more than sixteen functions for each pool thread are queued, and queues it otherwise |
| `ForkJoinOrder.QueueIsShort` | Boost_Searcher/data/input/boost_asio/example/cpp11/executors/fork_join.cpp:121-137 | so in every reachable state at most sixteen functions for each pool thread are queued, and one more |
| `ForkJoinWakeups.NoWakeupIsLost` | Boost_Searcher/data/input/boost_asio/example/cpp11/executors/fork_join.cpp:72-145 | in every reachable state a thread sleeps only in a loop that would go round again, and then there are at least as many threads about to look at the queue as functions in it |
| `ForkJoinWakeups.SleepersMissNothing` | Boost_Searcher/data/input/boost_asio/example/cpp11/executors/fork_join.cpp:190-198 | if nobody is about to look at the queue, a thread sleeps only because the queue is empty |
| `ForkJoinProgress.TimedRunIsRun` | Boost_Searcher/data/input/boost_asio/example/cpp11/executors/fork_join.cpp:72-198 | the runs with a history of when frames began are runs of the pool |
| `ForkJoinProgress.StepKeepsShape` | Boost_Searcher/data/input/boost_asio/example/cpp11/executors/fork_join.cpp:119-137 | every step keeps: a function began after the function that created its group, and after the frames below it |
| `ForkJoinProgress.NextWaiter` | Boost_Searcher/data/input/boost_asio/example/cpp11/executors/fork_join.cpp:192-198 | if nobody could get on, what a waiting thread waits for would be buried below a waiter for a group whose creator began later |
| `ForkJoinProgress.JoinsNeverDeadlock` | Boost_Searcher/data/input/boost_asio/example/cpp11/executors/fork_join.cpp:192-234 | if no function, nor the program outside, joins a group whose creator began before it did, then as long as some join has not returned some thread can finish a function, take one from the queue or leave its loop, although waiting threads are borrowed |
| `ForkJoinKnot.StepKeepsKnot` | Boost_Searcher/data/input/boost_asio/example/cpp11/executors/fork_join.cpp:72-198 | a knot is a set of joins each of which waits for a function below another of them on some stack: no step unties it, unless an exception leaves one of its joins |
| `ForkJoinKnot.KnottedJoinsNeverReturn` | Boost_Searcher/data/input/boost_asio/example/cpp11/executors/fork_join.cpp:192-198 | so in every run, whoever joins what, the joins of a knot stay where they are for ever, exceptions that leave them apart |
| `ForkJoinKnot.SelfJoinNeverReturns` | Boost_Searcher/data/input/boost_asio/example/cpp11/executors/fork_join.cpp:192-198 | in particular a join above a function of its own group on the same stack never returns |
| `ForkJoinKnot.DeadlocksAreKnots` | Boost_Searcher/data/input/boost_asio/example/cpp11/executors/fork_join.cpp:192-198 | and conversely, in every run, if a join is pending and no thread can get on, the waiting joins are a knot |
| `ForkJoinKnot.DisciplineTiesNoKnot` | Boost_Searcher/data/input/boost_asio/example/cpp11/executors/fork_join.cpp:224-234 | under the discipline of `JoinsNeverDeadlock` no reachable state has a knot |
| `ForkJoinKnot.SelfJoinDeadlocks` | Boost_Searcher/data/input/boost_asio/example/cpp11/executors/fork_join.cpp:192-198 | without it: a run in which a function joins its own group ties a knot and ends with every thread asleep |
| `ForkJoinSort.StepKeepsInv` | Boost_Searcher/data/input/boost_asio/example/cpp11/executors/fork_join.cpp:245-264 | every step of the calls of `fork_join_sort` and of the pool keeps: each forked half is queued, being executed or sorted, at one place, and the data of each range is untouched, sorted, or that of its halves |
| `ForkJoinSort.EveryStateIsSound` | Boost_Searcher/data/input/boost_asio/example/cpp11/executors/fork_join.cpp:245-264 | that holds in every state of every interleaving |
| `ForkJoinSort.JoinedHalvesSorted` | Boost_Searcher/data/input/boost_asio/example/cpp11/executors/fork_join.cpp:249-257 | behind its join a call finds both halves sorted and returned |
| `CallTree.HalvesExactly` | Boost_Searcher/data/input/boost_asio/example/cpp11/executors/fork_join.cpp:253-254 | the halves of a range of n elements have n / 2 elements, rounded down, and the others |
| `ForkJoinSort.SplitsExactly` | Boost_Searcher/data/input/boost_asio/example/cpp11/executors/fork_join.cpp:248-263 | a call splits its range if it has more than 32768 elements and sorts it at once otherwise |
| `ForkJoinSort.MergesFindSortedHalves` | Boost_Searcher/data/input/boost_asio/example/cpp11/executors/fork_join.cpp:257-257 | in every run `std::inplace_merge` is called only on two sorted halves |
| `ForkJoinSort.SortsUnderEveryInterleaving` | Boost_Searcher/data/input/boost_asio/example/cpp11/executors/fork_join.cpp:245-264 | when the outermost call has returned the data is sorted and a permutation of the input, whatever the interleaving |
| `ForkJoinSortProgress.NeverStuck` | Boost_Searcher/data/input/boost_asio/example/cpp11/executors/fork_join.cpp:245-264 | until then, in every state of every run, some thread can take a step that is neither falling asleep nor a spurious wakeup |
| `Pipeline.StepKeepsInv` | Boost_Searcher/data/input/boost_asio/example/cpp11/executors/pipeline.cpp:126-168 | every critical section keeps: what was popped and what is queued is what was pushed, and each stage has pushed what its function makes of what it popped |
| `Pipeline.QueueFollowsStream` | Boost_Searcher/data/input/boost_asio/example/cpp11/executors/pipeline.cpp:186-236 | what has gone into a queue is always a beginning of its sequential stream, and all of it once the queue is stopped |
| `Pipeline.OutputIsDeterministic` | Boost_Searcher/data/input/boost_asio/example/cpp11/executors/pipeline.cpp:174-236 | for any stages and any interleaving the output is a beginning of the sequential output, and all of it when the future is ready |
| `Pipeline.PopFailsOnlyAtTheEnd` | Boost_Searcher/data/input/boost_asio/example/cpp11/executors/pipeline.cpp:156-168 | `pop` fails only on a stopped and empty queue, after the stage has seen its whole input |
| `Pipeline.NeverStuck` | Boost_Searcher/data/input/boost_asio/example/cpp11/executors/pipeline.cpp:126-168 | until the future is ready some thread can take a step |
| `Pipeline.ProgramMeaning` | Boost_Searcher/data/input/boost_asio/example/cpp11/executors/pipeline.cpp:254-280 | filter, upper and writer one after the other print the lines longer than five characters in upper case |
| `Pipeline.LongLinesCounted` | Boost_Searcher/data/input/boost_asio/example/cpp11/executors/pipeline.cpp:254-280 | as many lines come out as are longer than five characters |
| `Pipeline.LongLineComesOut` | Boost_Searcher/data/input/boost_asio/example/cpp11/executors/pipeline.cpp:254-280 | such a line comes out behind those in front of it, with the letters a to z replaced by A to Z |
| `Pipeline.ProgramOutput` | Boost_Searcher/data/input/boost_asio/example/cpp11/executors/pipeline.cpp:247-288 | so that is what the writer has printed when `main` has waited, in order, under every interleaving |
| `PipelineEnd.ProgressLowersRank` | Boost_Searcher/data/input/boost_asio/example/cpp11/executors/pipeline.cpp:126-236 | every step of any stage or of the reader lowers a rank of the state; the work that an item causes downstream is part of it |
| `PipelineEnd.RunIsBounded` | Boost_Searcher/data/input/boost_asio/example/cpp11/executors/pipeline.cpp:126-236 | so a run has at most as many steps as the rank of its first state, and two more for each spurious wakeup |
| `PipelineEnd.EndsReady` | Boost_Searcher/data/input/boost_asio/example/cpp11/executors/pipeline.cpp:126-236 | a run that cannot get on has printed the whole sequential output and made the future ready |
| `PipelineEnd.ProgramIsBounded` | Boost_Searcher/data/input/boost_asio/example/cpp11/executors/pipeline.cpp:247-288 | for filter, upper and writer: at most 20 steps for each line and 17 more |
| `PageMap.PageMap1.Get` | ConcurrentMemoryPool/PageMap.h:18-25 | the value of the map, NULL out of range |
| `PageMap.PageMap1.Set` | ConcurrentMemoryPool/PageMap.h:26-30 | changes the map at one page |
| `PageMap.PageMap2.constructor` | ConcurrentMemoryPool/PageMap.h:53-57 | all leaves are there and all pages are NULL |
| `PageMap.PageMap2.Get` | ConcurrentMemoryPool/PageMap.h:58-67 | the value of the map, NULL out of range or without a leaf |
| `PageMap.PageMap2.Set` | ConcurrentMemoryPool/PageMap.h:68-74 | with a leaf there, changes the map at one page; no other page aliases it |
| `PageMap.PageMap2.Ensure` | ConcurrentMemoryPool/PageMap.h:76-94 | true exactly if the loop meets no page out of range; then every page of the range has a leaf; no mapping changes and no leaf goes away |
| `PageMap.PageMap3.constructor` | ConcurrentMemoryPool/PageMap.h:131-134 | all pages are NULL and only the root is allocated |
| `PageMap.PageMap3.Get` | ConcurrentMemoryPool/PageMap.h:135-146 | the value of the map, NULL out of range or where nothing was allocated |
| `PageMap.PageMap3.Set` | ConcurrentMemoryPool/PageMap.h:147-155 | changes the map at one page, allocating as needed |
| `PageMap.PageMap3.Ensure` | ConcurrentMemoryPool/PageMap.h:157-184 | true exactly if the loop meets no page out of range; then every page of the range has a leaf although one page per leaf is visited; no mapping changes and no leaf is replaced |
| `PageMap.PageMap3.NewLeaf` | ConcurrentMemoryPool/PageMap.h:172-180 | a fresh leaf changes the value of no page |
| `PageMap.PageMap3.NewNode` | ConcurrentMemoryPool/PageMap.h:165-171 | neither does a fresh interior node |
| `PageMap.PageMap3.SlicesDetermine` | ConcurrentMemoryPool/PageMap.h:137-139 | the three index slices together determine the page number |
| `PageMap.NextLeafStart` | ConcurrentMemoryPool/PageMap.h:181-181 | the next key is the first page behind the leaf, reached without overflow, and all pages before it share the leaf |
| `PageMap.InRangeMeans` | ConcurrentMemoryPool/PageMap.h:159-164 | for n >= 1 without overflow, "no page out of range" is start + n - 1 < 2^BITS |
| `PageMap.ReplayIsLastSet` | ConcurrentMemoryPool/PageMap.h:26-30 | a sequence of `set` calls leaves at each page the value set there last |
| `PageMap.LastSetMeans` | ConcurrentMemoryPool/PageMap.h:26-30 | that is the value of the last call for the page, NULL for a page of no call |
| `PageMap.Run3` | ConcurrentMemoryPool/PageMap.h:131-155 | after any in-range `set` calls on a three-level map, `get` is the last value set or NULL |
| `PageMap.AllAgree` | ConcurrentMemoryPool/PageMap.h:18-155 | the one-, two- and three-level maps answer every `get` alike |
| `Index.Index.BuildForwardIndex` | Boost_Searcher/index.hpp:137-158 | a line of three fields becomes a document numbered by its position; any other line changes nothing |
| `Index.LineIsDocument` | Boost_Searcher/index.hpp:137-158 | whatever lines are indexed, a line of exactly three fields becomes the document with these fields, numbered by how many documents come before it |
| `Index.DocumentsCounted` | Boost_Searcher/index.hpp:100-132 | and no other line becomes one |
| `Index.Index.CountDocument` | Boost_Searcher/index.hpp:174-198 | the word map holds exactly the words that the document mentions, with counters that give their weight there |
| `Index.Index.BuildInvertedIndex` | Boost_Searcher/index.hpp:161-215 | from the inverted index of the earlier documents to that of all documents |
| `Index.Index.BuildIndex` | Boost_Searcher/index.hpp:100-132 | afterwards the forward index holds the accepted lines in order and the inverted index exactly their non-empty posting lists |
| `Index.Index.GetForwardIndex` | Boost_Searcher/index.hpp:73-82 | the document of that number, if there is one |
| `Index.Index.GetInvertedList` | Boost_Searcher/index.hpp:85-96 | the posting list of the word, if it is not empty |
| `Index.PostingsSound` | Boost_Searcher/index.hpp:204-212 | a list holds only documents that mention the word, with weight ten times title plus content count, in the order of the documents and none twice |
| `Index.PostingsComplete` | Boost_Searcher/index.hpp:204-212 | and it holds every document that mentions the word |
| `Index.WeightInNumbers` | Boost_Searcher/index.hpp:200-209 | a document weighs ten for each occurrence of the word in its title and one for each in its content |
| `Searcher.ScorePositive` | Boost_Searcher/searcher.hpp:72-78 | a document scores if and only if it mentions a query word |
| `Searcher.Searcher.MergeTokens` | Boost_Searcher/searcher.hpp:58-79 | the merged map holds exactly the documents that mention a query word, with their score and their mentioned words in query order |
| `Searcher.SortedMergeAnswers` | Boost_Searcher/searcher.hpp:81-113 | sorted and looked up, the merged map is the brute-force answer |
| `Searcher.ScoreInNumbers` | Boost_Searcher/searcher.hpp:58-79 | a document scores ten for every pair of a query word and an equal word of its title, and one for every such pair with its content |
| `Searcher.AnswersInNumbers` | Boost_Searcher/searcher.hpp:47-113 | every answer is a document of the index, carries that number, which is positive, and stands behind no lighter one; no document is answered twice |
| `Searcher.MatchIsAnswered` | Boost_Searcher/searcher.hpp:47-113 | a document that matches anywhere is among the answers |
| `Searcher.ExcerptWordIsFirst` | Boost_Searcher/searcher.hpp:100-106 | the word for the excerpt is the first word of the query that the document mentions |
| `Searcher.Searcher.Search` | Boost_Searcher/searcher.hpp:47-113 | every document that mentions a query word appears exactly once, weighted by a scan of all query words with repetitions, in non-increasing order; no forward look-up fails |
| `Searcher.IndexAndSearch` | Boost_Searcher/searcher.hpp:33-113 | indexing lines and searching them is scanning the documents among them |
| `SearchEngine.LineRoundTripExactly` | Boost_Searcher/parser.cpp:250-261 | the index splits a saved line into title, content and url again if and only if no field holds the separator and the content is not empty |
| `SearchEngine.FileRoundTripExactly` | Boost_Searcher/parser.cpp:236-265 | the index holds the saved pages, all of them and in order, if and only if moreover no field of any page holds a newline |
| `SearchEngine.SavedBytes` | Boost_Searcher/parser.cpp:250-261 | the bytes of a saved page: title, content and url with byte 3 between them and a newline behind |
| `SearchEngine.AcceptedIsStorable` | Boost_Searcher/index.hpp:137-158 | whatever the index accepts from a file could have been saved in one line of it |
| `SearchEngine.CutString` | Boost_Searcher/util.hpp:62-65 | the query segmentation computes the cut that is given to the index |
| `SearchEngine.EngineWords` | Boost_Searcher/index.hpp:174-198 | the words of documents and queries are those of the query segmentation with the model, in order, with capital letters made small |
| `SearchEngine.CutFindsWords` | Boost_Searcher/cppjieba/QuerySegment.hpp:35-73 | a text that decodes and is not empty has words |
| `SearchEngine.SearchFile` | Boost_Searcher/searcher.hpp:33-113 | indexing the bytes of a file and searching it, with that cut, lowering and splitting, is scanning the documents in it |
| `SearchEngine.TitleFindsPage` | Boost_Searcher/searcher.hpp:47-113 | whoever searches for the title of a saved page, if it decodes and is not empty, finds that page among the answers |
| `Md5.Encode` | Boost_Searcher/limonp/include/limonp/Md5.hpp:207-216 | the words as bytes, low byte first |
| `Md5.Decode` | Boost_Searcher/limonp/include/limonp/Md5.hpp:220-226 | the words of a byte string, low byte first |
| `Md5.DecodeEncode` | Boost_Searcher/limonp/include/limonp/Md5.hpp:207-226 | decoding undoes encoding |
| `Md5.EncodeDecode` | Boost_Searcher/limonp/include/limonp/Md5.hpp:207-226 | encoding undoes decoding |
| `Md5.MD5Transform` | Boost_Searcher/limonp/include/limonp/Md5.hpp:119-203 | the state changes by the 64-step transform of the decoded block |
| `Md5.WrittenIs` | Boost_Searcher/limonp/include/limonp/Md5.hpp:67-86 | what the four macros leave in a register |
| `Md5Operations.TransformIsOperations` | Boost_Searcher/limonp/include/limonp/Md5.hpp:119-203 | for every state and block, the transform is the 64 operations of section 3.4 of RFC 1321, written out with register order, word, shift and constant, added to the state modulo 2^32 |
| `Md5Operations.FBitByBit` | Boost_Searcher/limonp/include/limonp/Md5.hpp:57-57 | on any set of bits: `F` is "if x then y else z" |
| `Md5Operations.GBitByBit` | Boost_Searcher/limonp/include/limonp/Md5.hpp:58-58 | `G` is "if z then x else y" |
| `Md5Operations.HBitByBit` | Boost_Searcher/limonp/include/limonp/Md5.hpp:59-59 | `H` is the parity |
| `Md5Operations.IBitByBit` | Boost_Searcher/limonp/include/limonp/Md5.hpp:60-60 | `I` turns the bits of y over where x is set or z is not |
| `Md5Operations.Rotates` | Boost_Searcher/limonp/include/limonp/Md5.hpp:63-63 | the two shifts rotate, for each of the sixteen distances |
| `Md5.CarryIsExact` | Boost_Searcher/limonp/include/limonp/Md5.hpp:258-261 | adding a chunk to the two 32-bit halves with the carry counts exactly its bits modulo 2^64 |
| `Md5.FitsBelow` | Boost_Searcher/limonp/include/limonp/Md5.hpp:270-271 | for a chunk that fits, the 32-bit guard `i + 63 < inputLen` says at every block start whether a whole block is left |
| `Md5.GuardIsExact` | Boost_Searcher/limonp/include/limonp/Md5.hpp:270-271 | the guard is right at every block start if and only if the last block start is at most 2^32 - 64; otherwise the loop runs past the chunk |
| `Md5.LongChunkRunsPastTheEnd` | Boost_Searcher/limonp/include/limonp/Md5.hpp:270-271 | with 63 bytes in the buffer, a chunk of 2^32 - 1 bytes makes the loop go on at a block start with only 62 bytes left |
| `Md5.EmptyBufferFits` | Boost_Searcher/limonp/include/limonp/Md5.hpp:270-271 | with an empty buffer every chunk fits |
| `Md5.MD5.Init` | Boost_Searcher/limonp/include/limonp/Md5.hpp:237-246 | the context of the empty message |
| `Md5.MD5.Blocks` | Boost_Searcher/limonp/include/limonp/Md5.hpp:263-276 | all full blocks of buffer and chunk are transformed, and buffer and rest of the chunk hold what is left |
| `Md5.MD5.Update` | Boost_Searcher/limonp/include/limonp/Md5.hpp:250-280 | the context keeps being determined by the concatenation of all chunks: state of its full blocks, its tail in the buffer, its bit count |
| `Md5.MD5.BufferIndex` | Boost_Searcher/limonp/include/limonp/Md5.hpp:256-256 | the bits of the 32-bit count tell how many bytes wait in the buffer, also after it has wrapped around |
| `Md5.ContextBehind` | Boost_Searcher/limonp/include/limonp/Md5.hpp:250-280 | a context whose first full blocks are hashed, whose rest is in the buffer and whose bits are counted is the context of those bytes, and the other way round |
| `Md5.PadLengthIsLeast` | Boost_Searcher/limonp/include/limonp/Md5.hpp:291-293 | the formula for the padding gives the least positive number of bytes that brings the length to 56 modulo 64 |
| `Md5.PaddedIs` | Boost_Searcher/limonp/include/limonp/Md5.hpp:285-298 | what `Final` feeds is the padding of sections 3.1 and 3.2 of RFC 1321, the least that brings the message to 56 modulo 64, and the length |
| `Md5.PaddingIsInjective` | Boost_Searcher/limonp/include/limonp/Md5.hpp:285-298 | no two messages below 2^64 bits have the same padded form |
| `Md5.MD5.Final` | Boost_Searcher/limonp/include/limonp/Md5.hpp:285-307 | the digest is the encoded state over the padded concatenation of all chunks; the context is zeroed |
| `Md5.HexRoundTrip` | Boost_Searcher/limonp/include/limonp/Md5.hpp:310-315 | the printed digest tells the digest |
| `Md5Example.AbcIsDigested` | Boost_Searcher/limonp/include/limonp/Md5.hpp:119-315 | the printed digest of "abc" is the one in appendix A.5 of RFC 1321 |
| `Md5.MD5.DigestFile` | Boost_Searcher/limonp/include/limonp/Md5.hpp:328-349 | whatever the sizes of the chunks read, the digest is that of the whole file |
| `Md5.MD5.DigestMemory` | Boost_Searcher/limonp/include/limonp/Md5.hpp:352-361 | the digest of the bytes |
| `Md5.MD5.DigestString` | Boost_Searcher/limonp/include/limonp/Md5.hpp:364-373 | the length is cut to 32 bits: a string of 2^32 bytes or more is digested only up to its length modulo 2^32 |
| `IcmpHeader.IcmpHeader.Encode` | Boost_Searcher/data/input/boost_asio/example/cpp11/icmp/icmp_header.hpp:65-69 | decoding the two bytes gives the word back and no other byte changes |
| `IcmpHeader.SumBody` | Boost_Searcher/data/input/boost_asio/example/cpp11/icmp/icmp_header.hpp:75-87 | the byte loop adds up the 16-bit words of the body, an odd last byte as a high byte, modulo 2^32 |
| `IcmpHeader.WordsAreBytePairs` | Boost_Searcher/data/input/boost_asio/example/cpp11/icmp/icmp_header.hpp:78-87 | which bytes each word of the body is made of |
| `IcmpHeader.OnesSumReduces` | Boost_Searcher/data/input/boost_asio/example/cpp11/icmp/icmp_header.hpp:75-92 | the one's-complement sum of section 1 of RFC 1071 is the plain sum without multiples of 0xffff |
| `IcmpHeader.TwoFoldsSuffice` | Boost_Searcher/data/input/boost_asio/example/cpp11/icmp/icmp_header.hpp:89-90 | two folds reduce any 32-bit sum to 16 bits without losing a carry |
| `IcmpHeader.ChecksumVerifiesExactly` | Boost_Searcher/data/input/boost_asio/example/cpp11/icmp/icmp_header.hpp:75-92 | the one's-complement sum of header and body is 0xffff if and only if the carries lost beyond 32 bits are a multiple of 0xffff |
| `IcmpHeader.ChecksumVerifies` | Boost_Searcher/data/input/boost_asio/example/cpp11/icmp/icmp_header.hpp:75-92 | so it is for every body whose word sum fits 32 bits |
| `IcmpHeader.LongBodyFails` | Boost_Searcher/data/input/boost_asio/example/cpp11/icmp/icmp_header.hpp:78-87 | a body of 0x20002 bytes 0xff behind a header of type 0 and code 1 loses one carry and does not verify |
| `IcmpHeader.IcmpHeader.ComputeChecksum` | Boost_Searcher/data/input/boost_asio/example/cpp11/icmp/icmp_header.hpp:75-92 | stores the checksum, changes no other field, and the result verifies exactly under that condition |

## Left out

- Reading dictionaries, models and stop words from files, and `parser.cpp` up to the pages that it saves (directories, HTML tags); HTTP, JSON, logging and directory walking. Dictionary, model, weights and pages are given values.
- `FullSegment`: it can skip single runes behind a long word, so no covering property is claimed for it.
- `Trie::DeleteNode`, `DictTrie::DeleteUserWord` and `LoadUserDict` after construction: they unlink whole subtrees or leave the trie behind; the trie here only grows.
- The overload of `InsertUserWord` that computes a weight from a frequency with `log`.
- `PosTagger`, and the overloads of `Jieba` and of `Cut` that only project the words. Separators are a given set.
- `LocalVector`, `std::vector` and `std::unordered_map` themselves: sequences, arrays and maps stand for them.
- An empty `next` map of a trie node stands for the NULL pointer as well, since the map is allocated on first use.
- Rounding of floating-point numbers: weights are reals. The clamp and the strict comparisons are kept.
- Sentences of 2^32 bytes or more, whose offsets the source cannot represent, and ranges of 2^31 runes or more, for which the `int` index of `Viterbi` overflows.
- MPSegment.CutIsBest: one direction, because under a clamped entry the cut can still be best by luck; the exact statements are `TableIsExactExactly` for the table and `BestCutExactly` for the bound on the weights.
- HMMSegment.StatusIsBest: one direction for the same reason; the exact statements are `FinalWeightIsExactExactly` and `BestPathExactly`.
- The excerpt `GetDesc`, the singleton lock of `Index`, and `int` overflow of index weights: weights are unbounded.
- `std::string` comparison order of `std::map` and `std::unordered_map` iteration: maps are walked in any order.
- Thread pool: threads that are not started, and `Add` during or after `Stop`, of which the source says nothing: that neither happens is an assumption of the model. A closure may call `Add` before `Stop`. Deletion of closures and workers is not modelled.
- Fairness of schedulers: `StopNeverHangs`, `JoinsNeverDeadlock` and `NeverStuck` say that a step is possible, and `StopIsBounded` and `RunIsBounded` how many there can be, not that a thread that could run does.
- ForkJoinProgress.JoinsNeverDeadlock: one direction, because a join against the discipline need not tie a knot; `DeadlocksAreKnots` and `KnottedJoinsNeverReturn` hold without it.
- Fork/join: an exception that leaves a pool thread ends the program, so there is no step for it; `static_thread_pool` is not modelled. The use count and the group counters are unbounded integers.
- `fork_join_sort`: `std::sort` and `std::inplace_merge` are one step each and nothing throws; the elements are reals, without NaN. How many steps a run of it can take is not bounded.
- Pipeline: any number of stages over one item type; `std::toupper` is that of the C locale; the executors that start the threads are not modelled.
- Failing allocation in the page maps, and page maps whose `1 << BITS` overflows `int` where the source computes it. `Common.h` is not part of this model.
- MD5: opening and reading the file, NULL arguments, and the sine formula behind the 64 constants, which are taken as the source has them. `DigestString` takes the bytes before the terminating NUL.
- ICMP: reading and writing the header from streams, and the setters, each of which is one call of `Encode`.
- GBK conversion, the trimming and joining helpers of `StringUtil.hpp`, and all other asio examples.
