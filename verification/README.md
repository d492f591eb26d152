# HybridSearch: a verified model

HybridSearch is a lexical and vector search engine in C++ behind a broker in C#. Its hard code is fast code that has
to agree exactly with something simple. This project models that code in Dafny and proves the agreement, for every
input. One module models one source file or one part of it, in its own form: loops stay loops with invariants, objects
whose methods change them stay classes, and expressions stay functions.

**Retrieval.** `Rounding`, `Ranking`, `BoundedHeap`, `Postings`, `Cursors`, `Scoring`, `CursorSets`, `TermAtATime`,
`DocAtATime`, `MaxScore`, `Pivots`, `Wand`, `Search`. Five query algorithms return one list: the same documents,
scores and tie order. Every skipped document is ruled out by a bound that is proved true, in rounded arithmetic. The
proofs share a notion of a frontier: below it every document has been offered, or cannot enter the list. The pivots of
WAND never fall, in rounded arithmetic too, which is what makes every `next_geq` meet its stated precondition.

**The index.** `Bits`, `Neon`, `BitPacking`, `Varint`, `Codec`, `Bm25`, `TermBuilder`, `Vocabulary`, `Runs`,
`IndexBuilder`, `BuiltIndex`, `Lexicon`, `LexiconReader`, `LexiconRoundTrip`, `StoredIndex`. External inversion with
spilled runs gives the posting lists of a direct inversion; blocks decode to what was encoded, by the vector and the
scalar kernel alike; stored bounds are upper bounds; files mean at most one thing, are refused exactly if they mean
none, and read back as they were written.

**From documents to answers.** `Engine` joins the two: whatever the algorithm, the codec, the hash function and the
spill threshold, a search returns the best k of all documents that hold a query term, by a score that is defined on
the documents alone. `Formula` writes that score out: in exact arithmetic it is the sum of BM25 over the distinct
terms of the query. `Fusion` models the broker's merge, and `Distribution` proves that shards that score with global
statistics, merged, give exactly the list of one index of the whole collection.

**The tokenizer.** `Regex`, `Languages`, `Nfa`, `NfaCompiler`, `Dfa`, `Utf8`, `Tokenizer`. For every grammar the
compiled automaton accepts the grammar's language, and tokens are the longest matches of at most 255 UTF-16 units.

**Broker indexes.** `EditDistance`, `Alignments` (what the distance means, without its table) and `SpellCorrector`
(symmetric deletes find the best correction over the whole vocabulary); `ByteStrings`, `TrieLayout`, `TrieTops`,
`TrieBuilder` and `CompletionTrie` (a radix trie in flat arrays answers every prefix like a scan of all strings).

**Requests.** `FanOut` (one slice request with hedging and failover), `HedgeBudget` (the token bucket shared by
concurrent requests, as a state machine), `LatencyTracker` (the rolling histogram), `Interleaving` (team draft).

**The graph index.** `Pruning`, `Grouping`, `InitialGraph` and `Vamana`: robust pruning, and a batched build that,
from its random start on, gives the same graph in whatever order the jobs of its phases run.

`Wrappers`, `Numbers`, `Sequences`, `Counting` and `Rings` are shared helpers.

Two properties the design relies on are not true of the code as it stands. Both have an exact condition:

- A query may ask for b > 1, which nothing refuses (`engine/src/server/shard_service.cc`, line 228). Then K can be
  negative for short documents, and the pair (largest frequency, shortest length) is no bound. In exact arithmetic the
  pair is one if and only if K is not negative at the shortest length (`Bm25.PairBoundsIff`), and the bounds hold for
  all terms that a collection's documents could have if and only if no document's K is negative
  (`Search.BoundsHoldIff`); where one is, `Search.NegativeKBeatsBound` builds a posting list, its stored bound and a
  posting above it. Under any rounding, a given term's bounds hold if K is not negative at the shortest length below
  its bound (`Search.BoundIsUpper`), so that searches need no more than that no document that holds a query term has a
  negative K. K == 0 is fine: a score is then its weight.
- `PickPrimary` adds the replica counter and the loop index in 32 bits. At the counter's largest values the sum is
  negative and so is its remainder, which is no index (`FanOut.PickOverflows`). The pick is right whatever the health
  of the replicas if and only if counter + n is at most 2^31, or just one more and n divides 2^31
  (`FanOut.PickIsRightIff`).

## Arithmetic

Scores are reals. Double rounding is any monotone and idempotent function that errs by at most one part in 2^53 on
non-negative numbers. Float rounding is any monotone function; for BM25 it also keeps positive numbers positive and
leaves 0 and 1 alone. IEEE 754 arithmetic without overflow and underflow is one instance. Sums are kept in the order
in which the program adds, since the scores of two algorithms must be equal and not merely close. Wrap-around is
written out where the program relies on it and where its input can reach it; where the model's numbers are unbounded
instead, it is said below.

## Model

| member | source | states |
|---|---|---|
| Rounding.PruneSafe | engine/src/lexical/search.cc:10-18 | if the rounded sum of bounds, slackened and rounded to float, does not exceed the threshold, then no rounded sum of at most 1024 contributions below those bounds does, whatever the order of either sum |
| BoundedHeap.SiftUp | engine/include/hs/common/topk.hpp:43 | an entry added to a binary heap moves up until it is one again, with the same entries |
| BoundedHeap.SiftDown | engine/include/hs/common/topk.hpp:48 | the entry that replaces the front moves down until it is a heap again, with the same entries |
| BoundedHeap.TopK.Threshold | engine/include/hs/common/topk.hpp:32-35 | the heap's front has the score of the k-th candidate |
| BoundedHeap.TopK.Push | engine/include/hs/common/topk.hpp:38-52 | on the binary heap: its contents, ranked, are the old ones with the candidate offered; a rejected candidate changes nothing, an admitted one is in the list |
| BoundedHeap.TopK.TakeSorted | engine/include/hs/common/topk.hpp:54-58 | the contents, best first, leaving the heap empty |
| Ranking.OfferAdds | engine/include/hs/common/topk.hpp:37-52 | offering one candidate after another keeps the list the k best of everything offered |
| Ranking.TopKUnique | engine/include/hs/common/topk.hpp:18-57 | a set has exactly one top-k list, so results that are each top-k are equal, ties included |
| Ranking.ThresholdRises | engine/include/hs/common/topk.hpp:32-52 | once the list is full its threshold never falls |
| Cursors.Gallop | engine/src/lexical/search.cc:131-151 | the gallop and binary search return the first block from the start whose last document reaches the target, as a linear scan would |
| Cursors.Cursor.FindBlock | engine/src/lexical/search.cc:131-151 | the same for a cursor, including terms of one block that have no block table |
| Cursors.Cursor.Decode | engine/src/lexical/search.cc:153-162 | decoding block b from its offset and its predecessor's last document loads exactly that block's postings |
| Cursors.Cursor.Next | engine/src/lexical/search.cc:88-100 | moves to the next posting of the list, or to the end after the last |
| Cursors.Cursor.NextGeq | engine/src/lexical/search.cc:101-119 | under the stated precondition, which every call in the model meets, moves to the first posting at or after the target, and never back |
| Cursors.Cursor.ShallowNext | engine/src/lexical/search.cc:121 | moves only the block pointer, to the first block that can hold the target |
| Scoring.BoundsDominate | engine/src/lexical/search.cc:10-18 | a document all of whose terms are covered by bounds that cannot beat the list scores at most the threshold |
| Scoring.SettlePush | engine/src/lexical/search.cc:180-183 | offering the document at the frontier moves the frontier past it |
| Scoring.SettleTo | engine/src/lexical/search.cc:180-183 | documents that cannot beat the list may be passed unscored without changing the answer; `<=` is enough because later documents lose ties |
| TermAtATime.Accumulators.Reserve | engine/src/lexical/search.cc:186-230 | the accumulators have room for every document, and those there are clean |
| TermAtATime.AddTerm | engine/src/lexical/search.cc:196-220 | decoding a term block by block adds each posting's contribution once to its document's accumulator, after those of the terms before it |
| TermAtATime.RunExhaustive | engine/src/lexical/search.cc:186-230 | for any number of terms, the answer is the top-k of all candidates, and the accumulators are left zero |
| DocAtATime.ScoreDoc | engine/src/lexical/search.cc:232-255 | the least document under a cursor gets its canonical score, and exactly the cursors on it move on |
| DocAtATime.RunDaat | engine/src/lexical/search.cc:232-255 | for any number of terms, the answer is the top-k of all candidates |
| MaxScore.CanonicalSum | engine/src/lexical/search.cc:257-262 | contributions are added in canonical order, so that the float is the one exhaustive scoring makes |
| MaxScore.UpdatePartition | engine/src/lexical/search.cc:264-321 | the non-essential terms are the longest prefix whose bounds together cannot beat the list |
| MaxScore.PartialDominates | engine/src/lexical/search.cc:264-321 | the contributions found so far and the bounds of the terms not looked at are an upper bound of a document's score |
| MaxScore.NonEssentialDominates | engine/src/lexical/search.cc:264-321 | a document that only non-essential terms match cannot enter the list |
| MaxScore.RunMaxScore | engine/src/lexical/search.cc:264-321 | the answer is the top-k of all candidates |
| Wand.SortByDoc | engine/src/lexical/search.cc:323-336 | the listed cursors are permuted into document order, and those on one document keep their order |
| Wand.FindPivot | engine/src/lexical/search.cc:338-371 | the first position whose cumulative bound could beat the list, or none |
| Wand.BelowPivot | engine/src/lexical/search.cc:338-371 | no document before the pivot that was not yet settled can enter the list |
| Pivots.PartSum | engine/src/lexical/search.cc:356-364 | leaving out terms never raises a rounded sum |
| Pivots.FloorKept | engine/src/lexical/search.cc:356-413 | an iteration that moves lists only to its pivot or past it, sorts stably and lets the threshold only rise leaves no pivot below its own |
| Pivots.SkipBlocks | engine/src/lexical/search.cc:372-396 | after a block-max skip the lists still at or before the pivot stay in blocks that reach the skip's target and whose bounds cannot beat the list, and all others have reached it |
| Wand.PivotNotBelow | engine/src/lexical/search.cc:338-371 | a pivot is not below the last one, nor below any target the block pointers were moved to |
| Wand.BlockCovers | engine/src/lexical/search.cc:121-126 | up to the end of the block the block pointer is on, that block's bound holds |
| Wand.BelowNext | engine/src/lexical/search.cc:372-396 | no document from the frontier to the target of a block-max skip can enter the list |
| Wand.NextTarget | engine/src/lexical/search.cc:380-395 | the target of a skip is the farthest that no block of a pivot list and no later list forbids, and past the pivot, so that the guard that would raise it never acts |
| Wand.TrySkip | engine/src/lexical/search.cc:372-396 | a skip keeps the frontier's meaning and moves a cursor |
| Wand.ScoreOrAdvance | engine/src/lexical/search.cc:398-413 | a pivot that all earlier lists have reached is scored canonically; otherwise one list is brought up to it |
| Wand.OfferPivot | engine/src/lexical/search.cc:398-408 | what is offered is the document at the frontier with its whole canonical score, so every document is scored at most once, in increasing order |
| Wand.WandStep | engine/src/lexical/search.cc:352-414 | an iteration keeps the frontier, and its pivot is at least every pivot before it; lists move to the pivot or past it and are sorted stably, fewer postings are left, and without block-max bounds the pivot is offered with its score exactly if the first list is on it; it ends the run exactly where there is no pivot |
| Wand.RunWand | engine/src/lexical/search.cc:338-415 | WAND and block-max WAND both end with the top-k of all candidates; the run is recorded moment by moment from the lists' first documents on, each following from the one before by its pivot, and the pivots never fall; the last moment has none |
| Search.BoundIsUpper | engine/src/lexical/search.cc:52-62 | each posting's contribution is at most the stored bound of its block or term: with the build parameters through the best posting, with any others through (largest frequency, shortest length), as long as K is not negative at that length |
| Search.BoundIsAttained | engine/src/lexical/search.cc:52-62 | no bound is looser than it must be: with the build parameters some posting of the range contributes exactly the bound, with others it is the contribution of one posting's frequency at another's length |
| Search.SafePart | engine/src/lexical/search.cc:52-62 | what a term's bound needs of K holds for its blocks' bounds too |
| Search.BoundsHoldIff | engine/src/lexical/search.cc:52-62 | in exact arithmetic, under parameters other than the build's, the bounds of all terms that the documents could have hold if and only if no document's K is negative (two documents or more, of at least four tokens) |
| Search.NegativeKBeatsBound | engine/src/lexical/search.cc:52-62 | a document with a negative K and one no shorter give a posting list whose stored bound is below one of its own postings, for every weight |
| Search.UsualQueryNorms | engine/src/lexical/search.cc:431-434 | every query with k1 > 0 and 0 <= b <= 1 has no negative K |
| Search.BuiltQueryIsValid | engine/src/lexical/search.cc:436-449 | what the index builder writes meets what the query algorithms assume |
| Search.Search | engine/src/lexical/search.cc:450-459 | an empty query or k = 0 finds nothing; otherwise the algorithm asked for gives the top-k |
| Search.AlgorithmsAgree | engine/src/lexical/search.cc:419-459 | any two of the five algorithms return the same list |
| Postings.BlockDecodes | engine/src/lexical/search.cc:153-162 | a block decodes from its offset and its predecessor's last document, and decoding ends where the next block begins |
| Varint.PutVarint | engine/src/lexical/varint.hpp:9-15 | the loop appends the number's seven-bit groups, low first |
| Varint.VarintReader.Next | engine/src/lexical/varint.hpp:20-32 | the reader's result and new position, including truncated and overlong input |
| Varint.VarintReader.Next32 | engine/src/lexical/varint.hpp:33-37 | the same, refusing values over 32 bits |
| Varint.NextInvertsPut | engine/src/lexical/varint.hpp:9-32 | reading inverts writing on every 64-bit value and stops after its last byte |
| Codec.GetInvertsPut | engine/src/lexical/codec.cc:28-53 | get_vbyte inverts put_vbyte on every 32-bit value |
| Varint.VByteMeaning | engine/src/lexical/codec.cc:28-34 | the bytes spell the number seven bits at a time, all but the last have the high bit, and none is spent in vain |
| Codec.PrefixDocsScalar | engine/src/lexical/codec.cc:137-142 | in place, gaps become documents in wrap-around arithmetic |
| Codec.PrefixDocsNeon | engine/src/lexical/codec.cc:145-156 | two shifted vector additions and a carry give the same documents as the scalar loop |
| Codec.PrefixInvertsGaps | engine/src/lexical/index_builder.cc:547-554 | running sums from any previous document, UINT32_MAX included, give back the documents whose gaps were taken |
| Codec.PrefixMeaning | engine/src/lexical/codec.cc:137-142 | a decoded document is the previous one plus the gaps up to its own plus one for each, in 32 bits |
| Codec.GapsMeaning | engine/src/lexical/index_builder.cc:547-554 | of ascending documents the gaps are the differences less one; the first is the document itself after UINT32_MAX |
| Codec.WidthIsLeast | engine/src/lexical/codec.cc:194-200 | no smaller width holds the values |
| BitPacking.Pack128 | engine/src/lexical/codec.cc:73-85 | or-ing every value into one or two words of its lane gives the vertical layout |
| BitPacking.Unpack128 | engine/src/lexical/codec.cc:87-99 | the scalar kernel cuts every value out of one or two words of its lane |
| BitPacking.UnpackNeon | engine/src/lexical/codec.cc:102-113 | the vector kernel, four lanes at a time with shifts by negative counts, gives the same values for every width from 0 to 32, whatever lies beyond the block's words |
| BitPacking.UnpackInvertsPack | engine/src/lexical/codec.cc:73-99 | unpacking inverts packing for 128 values of any width from 0 to 32 |
| Codec.EncodeBlock | engine/src/lexical/codec.cc:193-212 | appends the block's bytes for either codec and any length |
| Codec.DecodeBp128 | engine/src/lexical/codec.cc:160-189 | with the vector kernel, unpacking and prefix sums alike, the same result as with the scalar one, a corrupt header included |
| Codec.DecodeBlock | engine/src/lexical/codec.cc:214-225 | decoding by codec and length, the same for both kernels |
| Codec.DecodeInvertsEncode | engine/src/lexical/codec.cc:160-218 | decoding inverts encoding for both codecs, every block length, every list and every previous document, and consumes exactly the bytes written |
| Bm25.NormMonotone | engine/include/hs/lexical/bm25.hpp:42-65 | the norm byte and the length it stands for grow with the length |
| Bm25.NormFloor | engine/include/hs/lexical/bm25.hpp:42-65 | quantisation rounds a length down, keeps it positive, and is idempotent |
| Bm25.NormIsByte | engine/include/hs/lexical/bm25.hpp:57-61 | the norm of every length fits a byte |
| Bm25.NormExact | engine/include/hs/lexical/bm25.hpp:42-65 | the length that a norm stands for is exact below 40; beyond, what exceeds 24 keeps its four leading bits, so that at most an eighth is lost |
| Bm25.InvAntitone | engine/include/hs/lexical/bm25.hpp:75-78 | the inverse norm falls with the length, in rounded arithmetic, for both models |
| Bm25.ScaledMonotone | engine/include/hs/lexical/bm25.hpp:88-91 | the scaled frequency grows with the frequency and the inverse norm |
| Bm25.ScoreMonotone | engine/include/hs/lexical/bm25.hpp:93-96 | a contribution grows with the scaled frequency and is never negative |
| Bm25.TermMonotone | engine/include/hs/lexical/bm25.hpp:75-96 | as long as no K is negative, a contribution grows with the frequency and falls with the length, in rounded arithmetic |
| Bm25.PairBoundsIff | engine/include/hs/lexical/bm25.hpp:75-96 | in exact arithmetic, (largest frequency, shortest length) bounds every posting it stands for if and only if K is not negative at that length |
| TermBuilder.BoundOf | engine/src/lexical/index_builder.cc:509-526 | one pass finds the largest frequency, the shortest length and, for each model, the posting with the largest scaled frequency |
| TermBuilder.BoundsJoin | engine/src/lexical/index_builder.cc:556-571 | the blocks' bounds joined are the bounds of the whole term |
| TermBuilder.Columns | engine/src/lexical/index_builder.cc:547-554 | gaps and frequencies less one, or a refusal exactly when the documents do not increase |
| TermBuilder.BuildTerm | engine/src/lexical/index_builder.cc:542-588 | an entry exactly when the list is neither empty nor out of order; it stores every posting and has true bounds for the term and each block |
| Vocabulary.Vocab.GetOrAdd | engine/src/lexical/index_builder.cc:80-95 | a known string gets its id, a new one the next id; ids are dense, and distinct strings have distinct ids whatever the hash |
| Vocabulary.Vocab.Grow | engine/src/lexical/index_builder.cc:99-109 | doubling the table keeps every string and its id |
| Vocabulary.NotMet | engine/src/lexical/index_builder.cc:82-88 | a string that probing does not meet before an empty slot is not in the table |
| Runs.FlushRun | engine/src/lexical/index_builder.cc:319-370 | the counting sort keeps each term's postings together in the order they were added, and the run's bytes hold them |
| Runs.ReadTerm | engine/src/lexical/index_builder.cc:532-541 | a term's stretch of a run reads back as its postings there |
| Runs.MergeTerm | engine/src/lexical/index_builder.cc:530-541 | reading a term from all runs gives exactly its postings in everything spilled, wherever the spills fell |
| IndexBuilder.InvertedAscends | engine/src/lexical/index_builder.cc:382-389 | a direct inversion lists documents in ascending order with their frequencies |
| IndexBuilder.InvertedComplete | engine/src/lexical/index_builder.cc:382-389 | and leaves no document out |
| IndexBuilder.Inverter.Consume | engine/src/lexical/index_builder.cc:373-390 | buffer and runs together stay an inversion of the documents consumed, though spills fall in the middle of a document; refuses only when ordinals run out |
| IndexBuilder.Inverter.Flush | engine/src/lexical/index_builder.cc:319-370 | spilling moves the buffer to a run and changes nothing else |
| BuiltIndex.Invert | engine/src/lexical/index_builder.cc:372-390 | all documents are inverted, whatever the spill threshold |
| BuiltIndex.MergedTerm | engine/src/lexical/index_builder.cc:528-541 | the merge of a term is its list in the direct inversion, and not empty |
| BuiltIndex.NeverRefused | engine/src/lexical/index_builder.cc:542-549 | the errors for a term without postings and for postings out of order cannot occur |
| BuiltIndex.SortIds | engine/src/lexical/index_builder.cc:491-494 | every id once, in the byte order of its string |
| BuiltIndex.Build | engine/src/lexical/index_builder.cc:490-607 | an index of exactly the terms of the documents, each with its postings and true bounds |
| BuiltIndex.TermId | engine/src/lexical/index.cc:234-244 | the place of a term, or -1 exactly when it is absent |
| Lexicon.Write | engine/src/lexical/index_builder.cc:589-620 | the files: strings, one stretch of numbers a term, one row a block of terms of several blocks, and each codec's postings |
| LexiconReader.OpenLexicon | engine/src/lexical/index.cc:123-153 | the terms with their running offsets are read if and only if the lexicon is, to its last byte, numbers of the format's widths, and strings and block rows add up |
| LexiconReader.OpenBlocks | engine/src/lexical/index.cc:155-179 | the rows are read if and only if the block table is, to its last byte, the rows of the terms of several blocks |
| LexiconReader.Open | engine/src/lexical/index.cc:123-194 | whoever wrote the files: the tables that they mean, postings sizes included, or an error exactly if they mean none |
| LexiconReader.FilesSayOnce | engine/src/lexical/index.cc:123-194 | files mean at most one thing |
| LexiconRoundTrip.WrittenSay | engine/src/lexical/index_builder.cc:589-620 | what was written is what the files mean |
| LexiconRoundTrip.Reopen | engine/src/lexical/index.cc:123-194 | opening files that were written gives the tables of all terms and blocks |
| LexiconRoundTrip.ViewsRestored | engine/src/lexical/index.cc:123-179 | reading back gives every term's string, counts, bounds, postings and block rows for every codec, as they were written |
| StoredIndex.BuiltFits | engine/src/lexical/index_builder.cc:589-613 | what the builder makes fits the widths of the format |
| StoredIndex.WriteAndOpen | engine/src/lexical/index.cc:123-179 | an index of documents, written and opened, is the same index |
| StoredIndex.ReadPostings | engine/src/lexical/index.cc:246-261 | block after block, each from where the last ended, gives the whole list |
| Engine.Clauses | engine/src/lexical/search.cc:424-430 | one clause for each distinct term in order of first occurrence, with its count as boost |
| Engine.MakeQuery | engine/src/lexical/search.cc:436-449 | the terms found, each with its weight and bound from the whole collection's frequency; absent terms are left out |
| Engine.AbsentAddNothing | engine/src/lexical/search.cc:436-449 | terms that an index lacks do not change the scores of its documents |
| Engine.ScoreIsDocScore | engine/src/lexical/search.cc:257-262 | the score over posting lists is the score defined on the document's own terms and length |
| Engine.CandidatesAreMatching | engine/src/lexical/search.cc:419-459 | the candidates of the algorithms are exactly the documents that hold a query term |
| Engine.GlobalDf | engine/src/lexical/index_builder.cc:635-643 | the global frequency of each term of a shard, or an error exactly when the global index lacks one |
| Engine.SearchIndex | engine/src/lexical/search.cc:419-459 | whatever the algorithm and codec, the k best of all documents that hold a query term, by the score that Formula.MatchingIsFormula writes out |
| Formula.ScoreIsFormula | engine/include/hs/lexical/bm25.hpp:74-96 | in exact arithmetic and for positive K, a document's score is the sum over the distinct query terms it holds of occurrences in the query * idf(df) * tf / (tf + K), times k1 + 1 for the textbook model, where K is k1 * (1 - b + b * length / avgdl), df counts the documents that hold the term, and the length is the quantised one for Lucene |
| Formula.MatchingIsFormula | engine/src/lexical/search.cc:436-449 | what a search ranks: every document that holds a query term, and no other, by that sum |
| Formula.FirstOccurrences | engine/src/lexical/search.cc:424-430 | the query's distinct terms stand in the order in which they first occur |
| Formula.BoostIsCount | engine/src/lexical/search.cc:424-430 | a term's boost is how often it occurs in the query |
| Engine.SearchTwice | engine/src/lexical/search.cc:1-18 | two indexes of the same documents, built and searched in any way, give the same list |
| Fusion.MergeTopK | broker/HybridSearch.Broker/Search/Fusion.cs:46-63 | the top-k of every document's best score over all lists, each document once |
| Fusion.MergeInAnyOrder | broker/HybridSearch.Broker/Search/Fusion.cs:46-63 | only what the lists hold matters, not their order or number |
| Fusion.MergedIsTopK | broker/HybridSearch.Broker/Search/Fusion.cs:41-63 | merging the slices' top-k lists gives the top-k of all slices together |
| Fusion.RenamedTopK | engine/include/hs/lexical/index.hpp:100 | replacing ordinals by identifiers that ascend with them keeps the ranking, ties included |
| Distribution.PartTerm | engine/src/lexical/index_builder.cc:635-643 | no shard's build fails for want of global statistics |
| Distribution.BuildShard | engine/src/lexical/index_builder.cc:478-487 | a shard's index has its own postings and the whole collection's frequencies |
| Distribution.ShardMatchingIs | engine/src/lexical/index_builder.cc:478-487 | a document scores the same in its shard as in the whole |
| Distribution.SearchShards | broker/HybridSearch.Broker/Search/Fusion.cs:41-63 | for every partition (or cover) of the collection, searching the shards and merging gives the top-k of the whole |
| Distribution.ShardedEqualsSingle | broker/HybridSearch.Broker/Search/Fusion.cs:41-63 | the sharded list is exactly the single index's list |
| NfaCompiler.Compiler.Compile | engine/src/lexical/tokenizer.cc:126-166 | appends a node's fragment, of a known layout, and touches no earlier state; the end state has no edges |
| Regex.HoldsBits | engine/src/lexical/tokenizer.cc:26-32 | a predicate holds of a mask if all bits of `all` are set, one of `any` is unless it has none, and none of `none` is |
| Languages.SymbolMeaning | engine/src/lexical/tokenizer.cc:34-51 | a symbol matches one letter that its predicate holds of; an option its part or nothing |
| Languages.CatMeaning | engine/src/lexical/tokenizer.cc:134-142 | a concatenation matches words cut into one word of each part, in order |
| Languages.AltMeaning | engine/src/lexical/tokenizer.cc:143-151 | an alternative matches the words of its parts |
| Languages.StarMeaning | engine/src/lexical/tokenizer.cc:152-162 | a star matches words cut into any number of words of its part |
| Languages.PlusMeaning | engine/src/lexical/tokenizer.cc:152-162 | a plus matches words cut into at least one |
| Nfa.FragmentMeaning | engine/src/lexical/tokenizer.cc:126-166 | a fragment leads from its start to its end on exactly the words of its node, for every node |
| NfaCompiler.Closure | engine/src/lexical/tokenizer.cc:167-182 | the states that empty edges lead to |
| Dfa.Construct | engine/src/lexical/tokenizer.cc:227-261 | one state for each reachable set, or the report that there are too many exactly when there are, or that the empty string is accepted |
| Dfa.RunReads | engine/src/lexical/tokenizer.cc:227-260 | after every word the automaton's state stands for the states the word leads to, and -1 for none |
| Tokenizer.CompileGrammar | engine/src/lexical/tokenizer.cc:219-261 | the automaton accepts exactly the grammar's words and dies only where no word can follow; a report of an empty match is right |
| Tokenizer.AutomatonMeaning | engine/src/lexical/tokenizer.cc:219-261 | meaning is preserved through both translations |
| Tokenizer.BuildClasses | engine/src/lexical/tokenizer.cc:193-217 | the two-stage table with shared blocks gives every code point the class of its mask |
| Tokenizer.Scan | engine/src/lexical/tokenizer.cc:272-292 | the end of the longest match of at most 255 UTF-16 units, or -1 exactly if nothing matches |
| Tokenizer.Tokenize | engine/src/lexical/tokenizer.cc:264-302 | at each position the longest match is a token, and one code point is skipped only where no match starts |
| Tokenizer.MatchMeaning | engine/src/lexical/tokenizer.cc:275-293 | what a match is: whole code points, at most 255 UTF-16 units counting two for each from U+10000 on, whose properties spell a word of the grammar |
| Tokenizer.TokensDisjoint | engine/src/lexical/tokenizer.cc:264-302 | tokens come in order, do not overlap, and each is a match |
| Utf8.DecodeInvertsEncode | engine/src/lexical/tokenizer.hpp:17-62 | decoding inverts encoding for every scalar value |
| Utf8.DecodeMeaning | engine/src/lexical/tokenizer.hpp:17-44 | whatever decodes as more than a lone U+FFFD is the shortest form of a scalar value; a lone U+FFFD stands for a byte where none begins (RFC 3629 sections 3 and 4) |
| EditDistance.OsaDistance | broker/HybridSearch.Broker/Autocomplete/SpellCorrector.cs:126-151 | the three rotated rows with early exit give the recursive distance whenever that is at most max, and more than max otherwise |
| EditDistance.RowExceeds | broker/HybridSearch.Broker/Autocomplete/SpellCorrector.cs:134-149 | once a row exceeds max every later row does, although an exchange reaches back two rows |
| EditDistance.OsaSymmetric | broker/HybridSearch.Broker/Autocomplete/SpellCorrector.cs:126-151 | the distance is symmetric |
| EditDistance.CommonPart | broker/HybridSearch.Broker/Autocomplete/SpellCorrector.cs:67-97 | cutting two words anywhere leaves a common subsequence that is short of neither by more than the distance of the whole words |
| Alignments.DistanceIsLeast | broker/HybridSearch.Broker/Autocomplete/SpellCorrector.cs:126-151 | the distance is the least cost of an alignment: kept, inserted, deleted, substituted and exchanged pieces that read one word on one side and the other on the other, each but the kept ones costing one; some alignment costs that and none costs less |
| Alignments.DistanceZero | broker/HybridSearch.Broker/Autocomplete/SpellCorrector.cs:126-151 | only equal words are at distance zero |
| Alignments.OneEdit | broker/HybridSearch.Broker/Autocomplete/SpellCorrector.cs:139-143 | one edit anywhere in a word is at most one away |
| Alignments.ExchangeIsOne | broker/HybridSearch.Broker/Autocomplete/SpellCorrector.cs:142-143 | exchanging two different neighbours anywhere in a word is exactly one away |
| SpellCorrector.DeleteSet.AddDeletes | broker/HybridSearch.Broker/Autocomplete/SpellCorrector.cs:153-161 | everything added is a deletion, and what is added is closed under deletion as far as the depth goes |
| SpellCorrector.Deletes | broker/HybridSearch.Broker/Autocomplete/SpellCorrector.cs:52-58 | exactly the strings that at most two deletions of the seven-character key leave: the shared set cuts nothing off |
| SpellCorrector.DeletesMeet | broker/HybridSearch.Broker/Autocomplete/SpellCorrector.cs:67-97 | words within distance two share a deletion of their keys |
| SpellCorrector.Build | broker/HybridSearch.Broker/Autocomplete/SpellCorrector.cs:41-65 | exactly the correctable words of sufficient frequency, filed in order of hash under all their deletions |
| SpellCorrector.LowerBound | broker/HybridSearch.Broker/Autocomplete/SpellCorrector.cs:165-174 | the first entry at or after a hash |
| SpellCorrector.CorrectWord | broker/HybridSearch.Broker/Autocomplete/SpellCorrector.cs:68-97 | the minimum by distance, higher frequency and ordinal order over all words within distance two, and none exactly if there is none or the word is known or not correctable; hash collisions and probe order do not matter |
| SpellCorrector.CorrectionUnique | broker/HybridSearch.Broker/Autocomplete/SpellCorrector.cs:89-91 | there is one such minimum |
| SpellCorrector.CorrectionMeaning | broker/HybridSearch.Broker/Autocomplete/SpellCorrector.cs:89-91 | none exactly if every word is more than two away; otherwise a word within two that beats every other such word: nearer, or as near and more frequent, or as frequent and first by characters |
| SpellCorrector.OrdinalMeaning | broker/HybridSearch.Broker/Autocomplete/SpellCorrector.cs:90 | the ordinal order is decided by the first character in which two words differ, a prefix coming first |
| SpellCorrector.TargetsMeaning | broker/HybridSearch.Broker/Autocomplete/SpellCorrector.cs:45-49 | the words that can be corrections: as often as given, those counted at least minFrequency times, of 3 to 30 characters, all letters |
| TrieLayout.CoversStays | broker/HybridSearch.Broker/Autocomplete/CompletionTrie.cs:208-214 | a finished part of the trie survives whatever is built beside it |
| TrieLayout.ChildrenSize | broker/HybridSearch.Broker/Autocomplete/CompletionTrie.cs:198-206 | how many children strings make: at least two where none ends and the shared prefix cannot be extended |
| TrieTops.BestOfMerged | broker/HybridSearch.Broker/Autocomplete/CompletionTrie.cs:216-225 | the best K of the node's own string and the children's lists are the best K of the node's whole range |
| TrieBuilder.Builder.Build | broker/HybridSearch.Broker/Autocomplete/CompletionTrie.cs:192-226 | builds a trie of the range below the node, ends, and adds a bounded number of nodes |
| CompletionTrie.Build | broker/HybridSearch.Broker/Autocomplete/CompletionTrie.cs:54-95 | for any counted strings, a valid trie of the distinct non-empty strings with their total positive counts, and at most 2n nodes for n >= 1 strings |
| CompletionTrie.FindChild | broker/HybridSearch.Broker/Autocomplete/CompletionTrie.cs:147-158 | the child whose label begins with a byte, or -1 exactly if there is none |
| CompletionTrie.FindNode | broker/HybridSearch.Broker/Autocomplete/CompletionTrie.cs:131-145 | the node with exactly the strings that begin with the prefix, also when the prefix ends inside an edge, or -1 exactly if none does |
| CompletionTrie.Lookup | broker/HybridSearch.Broker/Autocomplete/CompletionTrie.cs:98-114 | the first min(k, maxK) strings with the prefix by falling count, then bytes |
| CompletionTrie.CompletionsMeaning | broker/HybridSearch.Broker/Autocomplete/CompletionTrie.cs:98-114 | in full: strings that begin with the prefix, with their totals, by falling count and then bytes; every other such string comes after k of them |
| CompletionTrie.TotalIsSum | broker/HybridSearch.Broker/Autocomplete/CompletionTrie.cs:59-76 | a string's total is the sum of its positive counts; the empty string has none |
| ByteStrings.LessMeaning | broker/HybridSearch.Broker/Autocomplete/CompletionTrie.cs:66 | the byte order is decided by the first byte in which two strings differ, a prefix coming first |
| CompletionTrie.CountOf | broker/HybridSearch.Broker/Autocomplete/CompletionTrie.cs:117-129 | the total count of a string, 0 if absent |
| FanOut.PickPrimary | broker/HybridSearch.Broker/Shards/ShardTopology.cs:98-108 | going round from the start in 32-bit arithmetic: the first replica not known to be unhealthy, the start if all are, or an exception at a negative index |
| FanOut.PickIsRightIff | broker/HybridSearch.Broker/Shards/ShardTopology.cs:98-108 | the exact condition on the counter and the number of replicas for the pick to be right whatever the health |
| FanOut.PickOverflows | broker/HybridSearch.Broker/Shards/ShardTopology.cs:101-104 | three replicas, the counter at its largest and an unhealthy first choice raise the exception |
| FanOut.PickAlternate | broker/HybridSearch.Broker/Shards/ShardTopology.cs:111-121 | the first untried replica that is not unhealthy, else the first untried one, and none exactly if all were tried |
| FanOut.SliceRequest.AllFailed | broker/HybridSearch.Broker/Shards/ShardFanOut.cs:112-125 | with nothing in flight: exactly one failover, on the alternate replica, if the last failure was quick, and otherwise the end |
| FanOut.SliceRequest.TimerEnded | broker/HybridSearch.Broker/Shards/ShardFanOut.cs:130-149 | the timer sends at most one hedge, to the alternate replica, exactly when something is in flight, time is left, a replica is untried and the budget grants a token |
| FanOut.SliceRequest.AttemptEnded | broker/HybridSearch.Broker/Shards/ShardFanOut.cs:152-180 | the request ends exactly on a success, whole or partial as that attempt said, and then exactly the attempts still running are cancelled |
| FanOut.SliceRequest.Run | broker/HybridSearch.Broker/Shards/ShardFanOut.cs:105-182 | in every run the loop ends: at the first success reported, or with nothing in flight and the last failure as the reason; every turn of it is what the situation and the answer ask for: a failover, a hedge, a success, a failure or the end |
| FanOut.DueIsSent | broker/HybridSearch.Broker/Shards/ShardFanOut.cs:112-149 | a failover is sent wherever nothing is in flight, the last failure was quick, time is left, none was sent, they are on and a replica is untried; a hedge wherever the timer ends with something in flight, time left, a replica untried and a token; both are among the attempts to the end |
| FanOut.SentWasDue | broker/HybridSearch.Broker/Shards/ShardFanOut.cs:112-149 | and no attempt but the primary was sent for any other reason |
| FanOut.GivesUp | broker/HybridSearch.Broker/Shards/ShardFanOut.cs:112-125 | a failed request had sent its failover, or failovers are off, or the deadline had expired, or the last failure was none or a timeout, or every replica was tried |
| FanOut.SearchSlice | broker/HybridSearch.Broker/Shards/ShardFanOut.cs:70-189 | the first request goes to the primary; all attempts use distinct replicas, at most min(3, replicas) of them, at most one hedge and one failover; the result is whole or partial if and only if some attempt reported success, and is then what that attempt, the last to report, said; failed only with nothing in flight, with the last failure as the reason, and only where a failover was sent, is off, came too late, was not called for or had no replica left; hedges and failovers that are due are sent, and no others; nothing is sent exactly when failing fast applies; an exception exactly where PickPrimary raises one |
| HedgeBudget.StepSafe | broker/HybridSearch.Broker/Shards/LatencyTracker.cs:144-172 | every step keeps 0 <= tokens <= cap and hedges * scale + tokens <= deposit * deposits, and every primary has deposited or is about to |
| HedgeBudget.AlwaysSafe | broker/HybridSearch.Broker/Shards/LatencyTracker.cs:137-172 | that holds after every run of any number of threads in any interleaving |
| HedgeBudget.HedgesBounded | broker/HybridSearch.Broker/Shards/LatencyTracker.cs:137-143 | at every instant hedges are at most the configured fraction of the primaries |
| HedgeBudget.WindowBounded | broker/HybridSearch.Broker/Shards/LatencyTracker.cs:137-172 | over any stretch of a run hedges are at most the burst and the configured fraction of the stretch's deposits |
| HedgeBudget.AcquireAlone | broker/HybridSearch.Broker/Shards/LatencyTracker.cs:163-172 | a TryAcquire that no other thread interrupts takes exactly 1 000 000 and counts one hedge if the bucket holds that much, and otherwise changes nothing |
| HedgeBudget.AcquireEnds | broker/HybridSearch.Broker/Shards/LatencyTracker.cs:163-172 | from every state there is such a run to its end |
| HedgeBudget.DepositAlone | broker/HybridSearch.Broker/Shards/LatencyTracker.cs:152-161 | an OnPrimary that no other thread interrupts leaves min(cap, tokens + perPrimary) |
| HedgeBudget.DepositEnds | broker/HybridSearch.Broker/Shards/LatencyTracker.cs:152-161 | from every state there is such a run to its end |
| HedgeBudget.AcquireOutcome | broker/HybridSearch.Broker/Shards/LatencyTracker.cs:163-172 | in every run, a thread that leaves TryAcquire has taken exactly one token and is counted, or has just read fewer than one and changed nothing |
| HedgeBudget.RetryMeansChange | broker/HybridSearch.Broker/Shards/LatencyTracker.cs:152-172 | in every run, a thread tries again only because another thread changed the bucket |
| HedgeBudget.Conserved | broker/HybridSearch.Broker/Shards/LatencyTracker.cs:144-172 | in every run, hedges * 1 000 000 + tokens + what the cap cut off is exactly perPrimary * deposits |
| HedgeBudget.NothingLost | broker/HybridSearch.Broker/Shards/LatencyTracker.cs:144-172 | and while the cap cuts nothing off, hedges * 1 000 000 + tokens == perPrimary * deposits |
| LatencyTracker.BucketMonotone | broker/HybridSearch.Broker/Shards/LatencyTracker.cs:115-123 | larger values never fall in smaller buckets, below zero and beyond the last bucket too |
| LatencyTracker.EdgeBrackets | broker/HybridSearch.Broker/Shards/LatencyTracker.cs:125-134 | below 2^26 microseconds a bucket's upper edge is at least the value and at most 1/32 above it, and the value itself below 64 |
| LatencyTracker.BucketOfRank | broker/HybridSearch.Broker/Shards/LatencyTracker.cs:94-100 | the first bucket whose cumulative count reaches a rank is the bucket of the sample of that rank |
| LatencyTracker.RankIsCeiling | broker/HybridSearch.Broker/Shards/LatencyTracker.cs:93 | the rank is the least whole number, one at least, that reaches the rounded product of the quantile and the count |
| LatencyTracker.Tracker.RecordMicros | broker/HybridSearch.Broker/Shards/LatencyTracker.cs:51-59 | each slot keeps holding the counts of the latest epoch that fell to it |
| LatencyTracker.Tracker.Merge | broker/HybridSearch.Broker/Shards/LatencyTracker.cs:80-89 | the live slots together count exactly the samples of the last epochs |
| LatencyTracker.Tracker.Quantile | broker/HybridSearch.Broker/Shards/LatencyTracker.cs:73-103 | the nearest-rank quantile of the samples of the last epochs, its rank the ceiling of the rounded product q * total and one at least, is bracketed by the value returned: equal below 64, otherwise at most it and within 1/32 of it |
| Interleaving.Interleave | broker/HybridSearch.Broker/Experiments/Interleaving.cs:61-94 | every pick follows the rules of the draft, the page stops short only when nothing is unused, and a coin is drawn exactly when the sizes are equal |
| Interleaving.DraftUnique | broker/HybridSearch.Broker/Experiments/Interleaving.cs:56-94 | the rankings, the coins and k determine the page |
| Interleaving.DraftDistinct | broker/HybridSearch.Broker/Experiments/Interleaving.cs:31-45 | no document is shown twice |
| Interleaving.DraftSize | broker/HybridSearch.Broker/Experiments/Interleaving.cs:42-45 | the page has min(k, size of the union) documents |
| Interleaving.PicksInOrder | broker/HybridSearch.Broker/Experiments/Interleaving.cs:36-41 | everything a team ranks above its pick was shown before |
| Interleaving.Balanced | broker/HybridSearch.Broker/Experiments/Interleaving.cs:36-41 | team sizes differ by at most one in every prefix for as long as both teams had unused documents |
| Interleaving.TeamMeaning | broker/HybridSearch.Broker/Experiments/Interleaving.cs:36-41 | while both teams have unused documents the smaller one picks, and equal ones toss a coin that was not tossed before |
| Interleaving.DraftMirrored | broker/HybridSearch.Broker/Experiments/Interleaving.cs:61-94 | neither team is favoured: with the rankings exchanged and every coin turned over the same page is shown for the other team |
| Interleaving.Credit | broker/HybridSearch.Broker/Experiments/Interleaving.cs:119-136 | the credits are the numbers of distinct clicked documents each team showed first, and total the distinct clicked documents shown |
| Pruning.RobustPrune | engine/src/vector/vamana.cc:27-55 | the loop with pruned flags makes the greedy choice from the sorted candidates within the cap |
| Pruning.PrunedUnique | engine/src/vector/vamana.cc:29-39 | the result depends on the set of candidates, not on their order or repetition |
| Pruning.PrunedMeaning | engine/src/vector/vamana.cc:27-55 | at most R candidates of those within the cap, nearest first, each once, never the point itself; for each kept one i before another kept one j, alpha * d(i, j) > d(p, j); every candidate within the cap that is left out has a kept k before it with alpha * d(k, c) <= d(p, c), or comes after R kept ones |
| Vamana.VamanaIndex.SearchAndPrune | engine/src/vector/vamana.cc:150-162 | phase 1 in any job order: each point's list is pruned from the same frozen graph |
| Vamana.VamanaIndex.Install | engine/src/vector/vamana.cc:163-170 | phase 2 in any job order: exactly the batch's rows are replaced |
| InitialGraph.InitRow | engine/src/vector/vamana.cc:104-121 | a point's first list: all others, or the first R distinct draws |
| InitialGraph.InitRowUnique | engine/src/vector/vamana.cc:101-122 | the stream of draws determines the list |
| InitialGraph.DrawnMeaning | engine/src/vector/vamana.cc:104-121 | what draws give is what came up by some draw and is not the point itself, each where it first came up |
| InitialGraph.InitRowOk | engine/src/vector/vamana.cc:101-122 | other points, each once, as many as R and the number of points allow |
| Vamana.VamanaIndex.Init | engine/src/vector/vamana.cc:101-122 | in any job order: the random graph that the streams determine |
| Grouping.GroupEdges | engine/src/vector/vamana.cc:171-180 | pairing, stable sort and cut give each destination once, in ascending order, with exactly the batch points that have an edge to it, in batch order |
| Vamana.VamanaIndex.AddBackEdges | engine/src/vector/vamana.cc:181-207 | phase 3 in any job order: each destination's row gains its new back-edges or is pruned |
| Vamana.BatchKeeps | engine/src/vector/vamana.cc:150-207 | a batch keeps every list free of duplicates and self-loops, with ids below n, within the capacity |
| Vamana.EdgesAnswered | engine/src/vector/vamana.cc:171-207 | every new edge's reverse is in the graph, unless the list it belongs in was pruned with it among the candidates |
| Vamana.BackEdgesMeaning | engine/src/vector/vamana.cc:181-207 | a list keeps what it has and appends the batch's points whose new lists have an edge to its point, each once; only if that exceeds the capacity it is pruned from exactly those points |
| Vamana.BatchDetermined | engine/src/vector/vamana.cc:150-207 | a batch has one outcome |
| Vamana.PassMeaning | engine/src/vector/vamana.cc:141-212 | a pass is a chain of batches that together are the order, of sizes 1, 2, 4 and so on up to the largest, the last taking the rest |
| Vamana.CleanKeeps | engine/src/vector/vamana.cc:215-228 | after the clean-up every list fits R, and those that did are unchanged |
| Vamana.VamanaIndex.Build | engine/src/vector/vamana.cc:101-228 | a build with any schedule, the random start included, is a build as described without schedules, with every list within R at the end |
| Vamana.BuildTwice | engine/include/hs/vector/vamana.hpp:11-24 | two builds of the same data with the same draws and any two schedules give the same graph |

## Left out

- Formula.ScoreIsFormula: exact arithmetic and positive K; in rounded arithmetic the order of the sum matters, and Engine.ScoreIsDocScore gives the same float for every index.
- Search.BoundIsUpper: assumes that K is not negative at the shortest length below the bound, without which it is false (Search.NegativeKBeatsBound).
- Search.BoundsHoldIff: speaks of all terms that the documents could have, in exact arithmetic and with at least four tokens a document; below four tokens a negative K need not break a bound.
- LatencyTracker.Tracker.RecordMicros: runs one call at a time with a clock that does not go back; samples lost when recorders race a slot's rotation, which the program accepts, are not modelled.
- LatencyTracker.Tracker.Quantile: the cache of the last quantile is left out, every call computes; fewer than 2^53 samples.
- FanOut.SearchSlice: the clock, the budget's answers, replica health and the order in which attempts end are arbitrary inputs; an attempt's request, its deadline arithmetic, recorded latencies, the caller's own cancellation and metrics are not modelled, and an attempt's own exception is a failure it reports.
- HedgeBudget.StepSafe: ratio and burst are given in millionths of a token, after rounding.
- LexiconReader.Open: running offsets and block counts are unbounded where the program has 64-bit and 32-bit ones; one codec or several are lists; meta.txt, document ids, lengths and norms files are not modelled.
- StoredIndex.WriteAndOpen: a term's bytes are below 2^32, as the 32-bit block offsets require, and strings below 2^32; the occurrence counts are given.
- Codec.DecodeBlock: reading past the end, which the program does not check, is an error here; shifts of 32 and more on corrupt VByte input have no meaning in C++ and a definite one here.
- Scoring.SettleTo: queries have at most 1024 terms, the limit that the slack in the source is chosen for.
- TermAtATime.RunExhaustive: block buffers are sequences.
- Wand.RunWand: the array of cursor pointers is a sequence of positions in the query.
- Vocabulary.Vocab.GetOrAdd: masking by a power of two is a remainder; ids are unbounded where the program has 32 bits.
- Runs.FlushRun: the three run buffers are one sequence of entries, and the 32 MB write buffer is not modelled.
- BuiltIndex.SortIds: std::sort is an insertion sort; so are the sorts of pairs, texts and candidates elsewhere.
- Engine.SearchIndex: idf is an arbitrary non-negative function of the frequency, and the average length is given; the explain option, deadlines and partial results are left out.
- Distribution.SearchShards: the shards are searched one after another and all answer; document identifiers are ordinals in the whole collection.
- Fusion.MergeTopK: scores are reals, without NaN; reciprocal rank and weighted fusion are left out.
- NfaCompiler.Compiler.Compile: the loop over a node's parts is a recursion.
- NfaCompiler.Closure: sets of states stand for the sorted vectors, as they do in Dfa.Construct, where the transition table is a sequence of rows.
- Tokenizer.CompileGrammar: the Unicode property tables and the word-boundary grammar of UAX #29 are arbitrary inputs.
- SpellCorrector.CorrectWord: letters and the 64-bit hash are arbitrary functions; Suggest, which corrects the words of a query one by one, is left out.
- CompletionTrie.Build: strings are given as UTF-8 bytes; the conversion from UTF-16 is left out, and offsets and counts are unbounded.
- Pruning.RobustPrune: distances and the product with alpha are arbitrary real functions, without NaN.
- Vamana.VamanaIndex.SearchAndPrune: the greedy search is an arbitrary function of the frozen graph that returns points; the jobs of a phase run one at a time in any order, and rows are sequences without their empty slots.
- Vamana.VamanaIndex.Build: the shuffle and the medoid are given; what a point's generator yields is an arbitrary stream that comes up with R different points, since no rejection loop ends otherwise; the search over the finished graph is left out.
- Interleaving.Interleave: coins are an arbitrary sequence; the random generator is left out.
- Analysis beyond tokens (stop words, stemming), the document store, snippets, disk and memory mapping, RPC, HTTP, rerankers, embeddings, PQ, k-means, query planning, statistics and user interfaces.
