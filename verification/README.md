# Verified model of the Jetson LLM engine's state and data layouts

This project models the parts of the engine whose correctness is a matter of control, layout and
scheduling, and proves what they promise. Numeric kernels are parameters, or exact integer and real
arithmetic. `dafny verify dfyconfig.toml` checks everything.

| files | component |
|---|---|
| `Transformer`, `Schedule`, `Turn`, `Engine`, `Conversations` | prefill in two schedules, hydration from disk, the decode loop, the turn-end save, and any run of turns, failed saves, evictions and crashes |
| `KvPool`, `KvPack`, `KvCache`, `KvFile`, `Scratch` | address arithmetic of the K/V pool, gather / compact / scatter, the crash-safe cache file, the scratch allocator |
| `ByteText`, `Pretokenizer`, `Bpe`, `Tokenizer` | UTF-8, the byte alphabet, word splitting, byte-pair merging, encoding and decoding |
| `ThinkSplit`, `Sampling` | the streaming `<think>` splitter, top-k / top-p selection |
| `KQuant`, `Mmq`, `Int8` | Q4_K and Q6_K bit layouts, the multi-warp tile kernel, INT8 quantization of K/V rows |
| `Common` | vocabulary shared by all of them |

How the main results fit together:

* `Transformer.Hidden` and `KvRow` say by recursion what every hidden state and cache row must be.
  Both prefill schedules are proved against them (`Schedule`), so they agree with each other.
* `Turns.TurnLaw` says of every delivery of a turn from which hidden state, window and random state it
  is sampled and when the turn ends; `Turns.RefTurn` is the one turn that obeys it (`Turns.LawIsReference`).
  `Engine.Generator.Generate` delivers that turn whatever the pool held before and whatever trusted file it found; what it commits is what a
  cold prefill computes, and every disk state it passes through is trusted. `Conversations` shows that
  trust survives every run of turns, failed saves, removals and crashes.
* The layout lemmas of `KvPool` say that the K and V rows tile the pool; the three copy loops of
  `KvCache` are proved row by row on top of that.
* `Tokenizers.Tokenizer.RoundTrip` says exactly for which texts decoding undoes encoding, for any
  byte-level vocabulary, in both encoding modes.
* `Mmq.GemmMmq` and `Mmq.HostReference` both fill the matrix product `Mmq.IsProduct`, which is stated on
  the packed weights and the activations alone.
* `KvFile.LoadAcceptsExactly` says which files load: those the save path could have written, no others.

Results where a promise holds only under a condition, stated with that condition:

* Resuming with a prompt that is already wholly cached delivers the same turn as sampling from the
  prefill state if and only if at least one token was asked for, nobody asked to stop before it, the
  memory guard allows position N - 1 and that step gets its logits (`Turns.FallbackEqualsPathA`).
* A token budget of zero is exceeded exactly when the first token comes from the prefill state, which
  delivers one token before the loop looks at the budget (`Turns.BudgetExceeded`).
* The splitter's reasoning never depends on how the stream is cut; its content does exactly when the
  chunk that completes `</think>` ends inside the separators that follow it
  (`ThinkSplits.ChunkIndependence`, with an instance in `ThinkSplits.SeparatorCutExample`).
* Decoding loses text exactly when bos or eos is among the text's own tokens
  (`Tokenizers.Tokenizer.RoundTrip`); a text that is the bos token is always lost
  (`Tokenizers.Tokenizer.MarkerTextIsLost`).

Where the code and its own comments disagree, the model follows the code:

* src/engine/decode.cu:802-806 says that without a model fingerprint no cache file is matched; the code
  then saves and compares an all-zero fingerprint like any other. The model takes the fingerprint as
  given and assumes it identifies the model.
* src/engine/decode.cu:1601-1615 logs that persistence is not wired in; the same function hydrates and saves.

## Model

| member | source | states |
|---|---|---|
| Transformer.Causal | src/engine/decode.cu:1034-1093 | a hidden state or cache row at position p depends only on tokens [0, p] |
| Transformer.HiddenEquation | src/engine/decode.cu:955-1093 | what a hidden state is: the embedding below, and above each layer its attention over the keys and values of its own and all earlier positions |
| Transformer.WarmIsCold | src/engine/decode.cu:1704-1711 | starting later from correct rows computes the same rows and hidden states as starting earlier |
| Schedule.PrefilledIsUnique | src/engine/decode.cu:1713-1763 | a prefill of given tokens over a given pool leaves exactly one possible pool |
| Schedule.LayerStep | src/engine/decode.cu:1080-1092 | with positions [0, p] of a layer in place, the layer takes reference input to reference output |
| Schedule.BatchStep | src/engine/decode.cu:1222-1259 | once a layer's rows are all stored, the whole batch passes from reference inputs to reference outputs |
| Schedule.StoreStep | src/engine/decode.cu:1192-1220 | storing the key and value of one position extends the finished part of the pool by exactly that position |
| Schedule.Runner.TransformerLayer | src/engine/decode.cu:955-1093 | one token through one layer: its rows are stored, the output is the reference's, no other row changes |
| Schedule.Runner.ForwardToken | src/engine/decode.cu:1751-1756 | one token through all layers ends in the reference's final hidden state |
| Schedule.Runner.PrefillPerToken | src/engine/decode.cu:1749-1763 | token-major prefill leaves the pool `Prefilled` and returns the last final hidden state |
| Schedule.Runner.StoreBatch | src/engine/decode.cu:1187-1220 | the per-token store loop of the batched layer puts every row of the batch in place |
| Schedule.Runner.TransformerPrefill | src/engine/decode.cu:1138-1262 | one batched layer stores all rows first, attends afterwards, and rewrites the batch with reference outputs |
| Schedule.Runner.PrefillBatched | src/engine/decode.cu:1713-1738 | layer-major prefill leaves the pool `Prefilled` and returns the last final hidden state |
| Schedule.SchedulesAgree | src/engine/decode.cu:1713-1763 | loop interchange: from equal pools both schedules leave equal pools and equal hidden states |
| Turns.CommittedTokens | src/engine/decode.cu:1865-1887 | the committed tokens are the prompt and all deliveries but the last |
| Turns.RecentWindow | src/engine/decode.cu:1341-1388 | the recent-token window is the last 64 deliveries, without an eos that stands for a failed step |
| Turns.TurnShape | src/engine/decode.cu:1838-1904 | whole-turn shape: committed tokens, window, number of deliveries, context limit |
| Turns.ReferenceObeysLaw | src/engine/decode.cu:1278-1389 | each delivery is the sample, under the last 64 deliveries and the current random state, from the cold hidden state of everything before it; the one exception is a last eos for a step without logits; the turn stops exactly at eos, budget, stop request, context limit or memory guard |
| Turns.LawIsUnique | src/engine/decode.cu:1865-1904 | that law leaves only one turn |
| Turns.LawIsReference | src/engine/decode.cu:1800-1904 | a turn is the reference turn if and only if it obeys the law |
| Turns.FallbackEqualsPathA | src/engine/decode.cu:1800-1863 | recovering the first token by a decode step gives the same turn as sampling it from the prefill state, if and only if the loop lets that step happen and the step gets its logits |
| Turns.BudgetExceeded | src/engine/decode.cu:1843-1865 | more than max_tokens tokens are delivered exactly on the prefill-state path with a budget of zero or less |
| Conversations.SaveKeepsTrust | src/engine/decode.cu:1996-2007 | any disk state during a save of a trusted file keeps every conversation's file trusted |
| Conversations.StepKeepsTrust | src/engine/decode.cu:1938-2037 | a turn's save (done, failed or cut short), a foreign save, a removal and a crash each keep trust |
| Conversations.AnyRunIsTrusted | src/engine/decode.cu:1938-2037 | multi-turn safety over every run: each conversation's compatible file holds tokens T and the rows a cold prefill of T computes |
| Conversations.TrustedLoad | src/engine/decode.cu:1486-1529 | what loading a trusted, compatible file returns: the saved tokens and their cold rows |
| Conversations.SavedIsCompatible | src/engine/decode.cu:1984-1995 | a file the save path wrote passes every check of hydration and holds one list of tokens |
| Engine.CommittedExtends | src/engine/decode.cu:1704-1711 | a pool that has committed a prefix is a sound start for the positions after it |
| Engine.WarmEqualsCold | src/engine/decode.cu:1709-1772 | prefilling [n, N) over n committed positions gives the cold prefill of the prompt at every layer, and the same last hidden state |
| Engine.LcpLength | src/engine/decode.cu:1531-1538 | the longest common prefix: equal up to it, different after it |
| Engine.Generator.TryHydrateKv | src/engine/decode.cu:1474-1579 | on a trusted disk the matched prefix is committed at every layer and is the longest common one; with a compatible file and no failing read or copy exactly that prefix is matched, and zero otherwise means nothing is relied on |
| Engine.Generator.MatchPrefix | src/engine/decode.cu:1531-1538 | the matching loop computes the longest common prefix |
| Engine.Generator.Restore | src/engine/decode.cu:1545-1569 | compacting and scattering a cold body commits its first n tokens, and fails only if a device copy does |
| Engine.Generator.Prefill | src/engine/decode.cu:1713-1772 | either schedule ends with the prompt committed and the cold final hidden state |
| Engine.Generator.SampleFrom | src/engine/decode.cu:1843-1853 | sampling updates last token, window and random state, and nothing else |
| Engine.Generator.DecodeStep | src/engine/decode.cu:1278-1389 | writes position pos from the last token, then samples from the cold hidden state of all committed tokens, or reports eos unchanged when the logits are lost |
| Engine.Generator.CommitAndSample | src/engine/decode.cu:1876-1887 | the token about to be written is recorded exactly when it extends the committed tokens |
| Engine.Generator.RunLoop | src/engine/decode.cu:1865-1904 | the loop reaches exactly the turn it still had to become, with the pool committed; `LawIsReference` says what that turn delivers |
| Engine.Generator.DecodeLoop | src/engine/decode.cu:1831-1904 | delivers the reference turn from either starting point; `LawIsReference` says what that turn delivers |
| Engine.GatheredIsCold | src/engine/decode.cu:1998-2000 | gathering a committed pool packs the rows of a cold prefill |
| Engine.Generator.SaveTurn | src/engine/decode.cu:1938-2037 | a save writes the committed tokens and cold rows atomically and happens whenever the id, the token count, the directory, the gather and the file calls allow it; every state on the way is trusted; a skipped or failed save leaves the old file |
| Engine.Generator.HouseKeep | src/engine/decode.cu:2020-2030 | eviction and clean-up keep trust and never touch the file just saved |
| Engine.Generator.FillPrompt | src/engine/decode.cu:1664-1829 | after hydration and prefill the whole prompt is committed, as much of it as a saved file allows is hydrated, and the first token, if any, is the reference's |
| Engine.Generator.Generate | src/engine/decode.cu:1594-2041 | one request end to end: error exactly when a prompt limit is exceeded, otherwise every delivery is the sample from the cold hidden state of all tokens before it (`TurnLaw`), the encoded prompt is a prefix of what is committed, the longest saved prefix is resumed when the file, reads and copies allow it, the disk stays trusted and what was committed is saved whenever it can be |
| Engine.ResumeConversation | src/engine/decode.cu:1594-2041 | two turns of one conversation: what the first saved, the second resumes, up to the longest common prefix of the committed tokens and the new prompt |
| Engine.PromptTokens | src/engine/decode.cu:1637-1641 | a nonempty encoding is the prompt itself, and an empty one becomes the bos token |
| Engine.AnyTwoEnginesAgree | src/engine/decode.cu:1594-2041 | two engines with one model but different pools and disks answer a request alike |
| KvPool.RowSlotOfRow | src/memory/kv_cache.cpp:96-120 | row number and (layer, K or V, position) determine each other, one way |
| KvPool.RowOfRowSlot | src/memory/kv_cache.cpp:96-120 | ... and the other way |
| KvPool.FastPtrIsRow | src/memory/kv_cache.cpp:98-113 | the code's address of a fast-pool slot is its row number times half an entry |
| KvPool.OverflowPtrIsRow | src/memory/kv_cache.cpp:102-118 | the same for the overflow pool |
| KvPool.FastPoolIsPartition | src/memory/kv_cache.cpp:96-120 | the K and V ranges of the fast pool are disjoint and fill exactly its allocation |
| KvPool.OverflowPoolIsPartition | src/memory/kv_cache.cpp:102-118 | the same for the overflow pool |
| KvPool.ScaleTableIsPartition | src/memory/kv_cache.cpp:257-281 | the INT8 scale rows are disjoint and fill exactly the scale table |
| KvPack.RowsDetermine | src/memory/kv_cache.cpp:163-168 | a slab is determined by its rows |
| KvPack.PackedIsUnique | src/memory/kv_cache.cpp:169-205 | a packed body is a function of the pool and the token count |
| KvPack.CompactOfPacked | src/engine/decode.cu:1545-1563 | cutting a body packed for u tokens down to m gives the body packed for m |
| KvPack.SaveThenRestore | src/engine/decode.cu:1545-1569 | saving u tokens and restoring m of them brings back positions below m at every layer and zeroes the rest |
| KvCache.CopyHalves | src/memory/kv_cache.cpp:188-202 | the key and value copies of one layer move n positions and nothing else |
| KvCache.ZeroTails | src/memory/kv_cache.cpp:243-248 | the two memsets clear exactly the positions from n on of one layer |
| KvCache.KVCachePool.constructor | src/memory/kv_cache.cpp:20-85 | a pool of exactly the bytes the shape needs |
| KvCache.KVCachePool.GatherUsedToHost | src/memory/kv_cache.cpp:169-205 | succeeds exactly when the count is in range and all copies succeed; then the destination is the packed image |
| KvCache.KVCachePool.ScatterFromHost | src/memory/kv_cache.cpp:207-253 | succeeds exactly when the count is in range and all copies succeed; then the pool holds the packed rows, the rest zero or as before |
| KvCache.KVCachePool.Store | src/engine/decode.cu:1049-1080 | storing one position changes its key row and its value row and no other |
| KvCache.Compact | src/engine/decode.cu:1545-1563 | the compaction loop produces the packed image of the first m positions |
| KvCache.PackedSize | src/memory/kv_cache.cpp:169-177 | the packed size is the size of its rows |
| KvFile.LeRoundTrip | src/persistence/kv_cache_file.h:31-46 | little-endian integers read back as written |
| KvFile.LeDigit | src/persistence/kv_cache_file.h:31-46 | byte i is digit i in base 256, least significant first |
| KvFile.HeaderRoundTrip | src/persistence/kv_cache_file.h:31-46 | the 128-byte header reads back as written |
| KvFile.HeaderLayout | src/persistence/kv_cache_file.h:31-46 | the byte offsets of all eleven fields of the packed struct |
| KvFile.HeaderOfBytes | src/persistence/kv_cache_file.h:31-46 | every 128 bytes are the encoding of the header they read as |
| KvFile.U32sRoundTrip | src/persistence/kv_cache_file.cpp:80-85 | the token region reads back as written |
| KvFile.LoadOfSave | src/persistence/kv_cache_file.cpp:120-186 | a complete file is accepted by peek and load, and load returns header, tokens and body |
| KvFile.LoadAcceptsExactly | src/persistence/kv_cache_file.cpp:120-186 | load accepts exactly the complete files: whatever it returns, the file is header, tokens and body of it and nothing more |
| KvFile.PeekAcceptsExactly | src/persistence/kv_cache_file.cpp:245-278 | peek accepts exactly the complete files whenever the advertised size fits in 64 bits |
| KvFile.OtherLengthsRejected | src/persistence/kv_cache_file.cpp:153-166 | every proper prefix and every extension of a complete file is rejected by both |
| KvFile.WriteAll | src/persistence/kv_cache_file.cpp:24-39 | with any short writes, success means all bytes were appended; only the temporary file is touched |
| KvFile.WriteParts | src/persistence/kv_cache_file.cpp:76-88 | header, tokens and body land in the temporary file in that order |
| KvFile.Publish | src/persistence/kv_cache_file.cpp:89-100 | after fsync and rename the path holds the synced new file; on failure it is unchanged |
| KvFile.SaveKvToFile | src/persistence/kv_cache_file.cpp:41-101 | at every recorded state the path holds its old contents or the complete new file; on success the new file, on failure the old one |
| KvFile.ReadAll | src/persistence/kv_cache_file.cpp:103-118 | with any short reads, success means the exact bytes asked for |
| KvFile.LoadKvFromFile | src/persistence/kv_cache_file.cpp:120-186 | returns what parsing the file's bytes returns, or nothing if a read fails |
| KvFile.PeekKvHeader | src/persistence/kv_cache_file.cpp:245-278 | returns what peeking at the file's bytes returns, or nothing if the read fails |
| KvFile.PathsDistinct | src/persistence/kv_cache_file.cpp:297-301 | two conversations never share a file, nor a file and a temporary file |
| KvFile.ValidIdsStayInside | src/engine/decode.cu:1581-1592 | a valid id is at most 64 letters, digits, underscores and hyphens, so its file lies directly in the cache directory |
| Scratch.AlignUp | src/memory/pool.cpp:33-46 | the least padding to a multiple of 256 |
| Scratch.ScratchPool.Get | src/memory/pool.cpp:33-46 | succeeds exactly when the aligned request fits; the offset stays aligned |
| Scratch.ScratchPool.RewindTo | src/memory/pool.cpp:52-59 | restores an offset in range and ignores any other |
| Scratch.ScratchPool.GetAll | src/engine/decode.cu:1159-1170 | requests in sequence give aligned, disjoint buffers, and all succeed when sizes plus padding fit |
| Scratch.RequestsFit | src/engine/decode.cu:1690-1702 | the admission test leaves room for every request of any layer, padding included |
| Scratch.ScratchPool.PrefillBuffers | src/engine/decode.cu:1724-1735 | under the admission test no request of any layer fails, buffers are aligned and disjoint from each other and from the activations, and each layer restores the offset |
| ByteText.Utf8RoundTrip | src/engine/tokenizer.cpp:16-42 | an encoded codepoint reads back and its first byte tells its length (section 3 of RFC 3629) |
| ByteText.SymbolInjective | src/engine/tokenizer.cpp:44-67 | two bytes never share a symbol, and each symbol is one whole codepoint |
| ByteText.AlphabetTable | src/engine/tokenizer.cpp:44-67 | the alphabet in closed form: the codepoint of every byte and the one or two bytes of its symbol |
| ByteText.AlphabetOrder | src/engine/tokenizer.cpp:46-59 | the table-building loops give every byte its codepoint |
| ByteText.ByteEncoder | src/engine/tokenizer.cpp:44-67 | the table maps every byte to its symbol |
| ByteText.ByteDecoder | src/engine/tokenizer.cpp:69-78 | the inverse table knows exactly the 256 symbols |
| ByteText.EncodeBytesGpt2 | src/engine/tokenizer.cpp:80-87 | the loop concatenates the symbols of all bytes |
| ByteText.SplitUtf8Symbols | src/engine/tokenizer.cpp:89-98 | the cursor loop computes the split `SplitUtf8` |
| ByteText.SplitPartitions | src/engine/tokenizer.cpp:89-98 | the pieces are nonempty and concatenate to the input |
| ByteText.CutsByLead | src/engine/tokenizer.cpp:36-42 | each piece is as long as its first byte asks for, or a single byte when the text ends before that |
| ByteText.SplitAppend | src/engine/tokenizer.cpp:89-98 | cutting a whole string and its continuation together cuts each on its own |
| ByteText.SplitOfEncoded | src/engine/tokenizer.cpp:80-98 | splitting byte-encoded text yields exactly one symbol per input byte, in order |
| ByteText.WholePrefix | src/engine/tokenizer.cpp:344-362 | a whole prefix of byte-encoded text encodes a prefix of the bytes |
| Pretokenizer.PieceEndIsPiece | src/engine/tokenizer.cpp:103-136 | the scan stops exactly at the end of the contraction or of the longest run of one class |
| Pretokenizer.CharacterClasses | src/engine/tokenizer.cpp:107-133 | the classes and the seven contractions, in characters |
| Pretokenizer.ContractionUnique | src/engine/tokenizer.cpp:106-116 | at most one contraction fits, so their order does not matter |
| Pretokenizer.PiecesPartition | src/engine/tokenizer.cpp:100-142 | pieces are nonempty and concatenate to the text |
| Pretokenizer.PiecesArePieces | src/engine/tokenizer.cpp:100-142 | every piece is a contraction or a longest run of one class, with the blank before it where the source takes it along |
| Pretokenizer.CutsAgree | src/engine/tokenizer.cpp:100-142 | there is only one way to cut a text into such pieces |
| Pretokenizer.NextPiece | src/engine/tokenizer.cpp:104-136 | one turn of the scan finds the end of the piece |
| Pretokenizer.PretokenizeAscii | src/engine/tokenizer.cpp:100-142 | the scan returns the pieces of the text |
| Bpe.BestIsBest | src/engine/tokenizer.cpp:374-383 | the scan finds the leftmost pair of least rank, and none exactly when no pair is in the table |
| Bpe.RunsAgree | src/engine/tokenizer.cpp:373-387 | every complete sequence of best merges ends in the same symbols, one symbol fewer per merge |
| Bpe.MergedKeeps | src/engine/tokenizer.cpp:373-387 | merging keeps the text and its codepoint boundaries and leaves no mergeable pair |
| Bpe.FindBest | src/engine/tokenizer.cpp:374-382 | the loop over pairs computes the best index |
| Bpe.MergeSymbols | src/engine/tokenizer.cpp:371-387 | the merge loop terminates with the merged symbols |
| Bpe.BuildRanks | src/engine/tokenizer.cpp:195-217 | with no line end before the blank of any line, the rank of a pair is the number of the last line that joins it, and pairs on no line have none |
| Tokenizers.BuildIds | src/engine/tokenizer.cpp:288-323 | exactly the vocabulary's entries get ids, each pointing back at its entry, and the length limit covers them all |
| Tokenizers.BuildSpecials | src/engine/tokenizer.cpp:295-309 | exactly the entries of special form are special tokens, longest first |
| Tokenizers.Load | src/engine/tokenizer.cpp:288-324 | the tables of any vocabulary satisfy what encoding and decoding rely on |
| Tokenizers.Tokenizer.LongestLen | src/engine/tokenizer.cpp:348-357 | the longest prefix within the limit that is a token, zero when there is none |
| Tokenizers.Tokenizer.SegmentsPartition | src/engine/tokenizer.cpp:409-440 | special tokens and plain runs concatenate to the text |
| Tokenizers.Tokenizer.SegmentsProper | src/engine/tokenizer.cpp:409-440 | every plain run is nonempty and no special token starts anywhere in it |
| Tokenizers.Tokenizer.SpecialIsLongest | src/engine/tokenizer.cpp:306-309 | with the list sorted as loaded, the match is a longest special token at that position |
| Tokenizers.Tokenizer.LongestSpells | src/engine/tokenizer.cpp:342-369 | in longest-match mode the tokens of a piece decode to it |
| Tokenizers.Tokenizer.LongestTokensLaw | src/engine/tokenizer.cpp:342-369 | every token taken is the longest one that starts there, and a codepoint is dropped only where none does |
| Tokenizers.Tokenizer.SymbolsSpell | src/engine/tokenizer.cpp:389-405 | in byte-pair mode the tokens of merged symbols, with the codepoint fallback, decode to the piece |
| Tokenizers.Tokenizer.OneTokenEach | src/engine/tokenizer.cpp:389-394 | when every merged symbol has a token the result is exactly one token per symbol, its own |
| Tokenizers.Tokenizer.LookupLaw | src/engine/tokenizer.cpp:396-404 | the fallback yields the tokens of the codepoints that have one, in order |
| Tokenizers.Tokenizer.EncodedLaw | src/engine/tokenizer.cpp:332-446 | how any text is encoded: special tokens whole, plain runs piece by piece, a piece greedily or by its merged symbols, and a symbol codepoint by codepoint only if it has no token |
| Tokenizers.Tokenizer.SpecialSpells | src/engine/tokenizer.cpp:448-480 | an ASCII special token decodes to its own text |
| Tokenizers.Tokenizer.BodySpells | src/engine/tokenizer.cpp:332-440 | the tokens of any text decode to that text, each to at least one byte |
| Tokenizers.Tokenizer.DecodedSpelling | src/engine/tokenizer.cpp:482-489 | the list decoder loses bytes exactly when bos or eos is among the tokens |
| Tokenizers.Tokenizer.RoundTrip | src/engine/tokenizer.cpp:332-489 | decode(encode(text)) == text if and only if the text's own tokens include neither bos nor eos |
| Tokenizers.Tokenizer.PlainTextSurvives | src/engine/tokenizer.cpp:332-489 | every text that shows neither marker survives encoding and decoding |
| Tokenizers.Tokenizer.MarkerTextIsLost | src/engine/tokenizer.cpp:482-489 | a text that is the bos token decodes to nothing |
| Tokenizers.Tokenizer.LongestMatch | src/engine/tokenizer.cpp:342-369 | the loop takes the longest token at each place and skips a codepoint only where none starts |
| Tokenizers.Tokenizer.Fallback | src/engine/tokenizer.cpp:396-404 | the fallback loop emits the tokens of the codepoints that have one |
| Tokenizers.Tokenizer.BpeTokens | src/engine/tokenizer.cpp:371-405 | the loop emits for each merged symbol its own token, codepoints only inside a symbol without one; with a token for every symbol there is exactly one token each |
| Tokenizers.Tokenizer.EncodePlain | src/engine/tokenizer.cpp:337-407 | the tokens of all pieces of a plain run, each piece by the law of its mode |
| Tokenizers.Tokenizer.Encode | src/engine/tokenizer.cpp:332-446 | bos if configured, the tokens of all segments by the law of `EncodedLaw`, eos if configured |
| Tokenizers.Tokenizer.DecodeId | src/engine/tokenizer.cpp:448-480 | one token's bytes: escape, symbol by symbol, or verbatim |
| Tokenizers.Tokenizer.Decode | src/engine/tokenizer.cpp:482-489 | the concatenation without bos and eos |
| Tokenizers.Tokenizer.EncodeThenDecode | src/engine/tokenizer.cpp:332-489 | running encoder and decoder gives the text back exactly under the round-trip condition |
| ThinkSplits.FindIs | src/server/http_server.cpp:118-119 | the search returns the one first occurrence |
| ThinkSplits.FindInBuffer | src/server/http_server.cpp:118-134 | letting go of all but the last bytes never loses a tag cut in two |
| ThinkSplits.ChunkIndependence | src/server/http_server.cpp:98-150 | chunking never changes the reasoning, and changes the content exactly when the completing chunk ends inside the separators |
| ThinkSplits.SeparatorCutExample | src/server/http_server.cpp:122-125 | such a stream exists |
| ThinkSplits.WholeStreamLaw | src/server/http_server.cpp:98-150 | in one chunk: reasoning up to the first closing tag, newlines and blanks dropped, the rest is the answer |
| ThinkSplits.LaterChunkLaw | src/server/http_server.cpp:116-143 | a chunk after the completing one is answer in full, separators included |
| ThinkSplits.UnclosedLaw | src/server/http_server.cpp:98-150 | a stream that never closes its reasoning is all reasoning, and one that does not open it is all answer |
| ThinkSplits.ThinkSplit.Feed | src/server/http_server.cpp:99-143 | each feed keeps the invariant, emits only whole decisions, and leaves at most eight bytes buffered |
| ThinkSplits.ThinkSplit.Flush | src/server/http_server.cpp:145-150 | flushing completes the two parts of the stream in order |
| ThinkSplits.SplitStream | src/server/http_server.cpp:93-151 | for every list of chunks the segments are, in order, exactly the specified reasoning and content |
| Sampling.TopKIsUnique | src/engine/sample.cpp:69-77 | the k largest values are determined by the values alone |
| Sampling.ScanTopK | src/engine/sample.cpp:124-135 | the bounded heap ends with the k largest finite logits, each under its own id: none let go exceeds one kept |
| Sampling.Offer | src/engine/sample.cpp:124-135 | one heap step keeps that property |
| Sampling.TopKFilter | src/engine/sample.cpp:69-77 | the partial sort keeps the k largest in descending order, or everything when k is out of range |
| Sampling.HeapEqualsSorting | src/engine/sample.cpp:69-142 | the heap and the partial sort keep the same multiset of values |
| Sampling.RankedAreLargest | src/engine/sample.cpp:124-142 | on the logits themselves: the candidates name distinct finite logits in descending order, each value times the temperature is its logit, and no logit left out is larger |
| Sampling.DistributionLaw | src/engine/sample.cpp:144-153 | the probabilities are proportional to the exponentials of the distance to the largest value, and add up to one |
| Sampling.TopPFilter | src/engine/sample.cpp:79-92 | the cut is the shortest prefix whose mass exceeds p, or everything |
| Sampling.SampleFrom | src/engine/sample.cpp:94-109 | the first candidate whose cumulative mass reaches the random number, or the last |
| Sampling.SampleGreedy | src/engine/sample.cpp:159-170 | the leftmost largest finite logit, zero when there is none |
| Sampling.SampleTopKFast | src/engine/sample.cpp:111-157 | the token is drawn from the nucleus of the k largest finite logits, stated on the logits, or greedily when there is no mass |
| KQuant.UnpackPackScales | src/engine/decode.cu:116-124 | unpacking the twelve bytes undoes packing, for any sixteen 6-bit values |
| KQuant.ScaleDigits | src/engine/decode.cu:116-124 | where the digits of the sixteen 6-bit values lie in the twelve bytes |
| KQuant.PackUnpackScales | tests/test_mmq_q4k_multiwarp.cu:78-88 | packing undoes unpacking, for any twelve bytes |
| KQuant.Q4Bijection | src/engine/decode.cu:138-156 | the 256 elements and the 256 nibbles of a block correspond one to one |
| KQuant.Q4RoundTrip | src/engine/decode.cu:149-155 | any 256 nibbles survive packing |
| KQuant.Q4Lossless | src/engine/decode.cu:149-155 | any 128 bytes survive unpacking |
| KQuant.Q4At | tests/test_mmq_q4k_multiwarp.cu:149-175 | element e takes scale e / 32 and the nibble the tile kernel's formula selects |
| KQuant.Q4Digits | src/engine/decode.cu:149-155 | elements 0-31 of each 64 are the low digits of 32 consecutive bytes, elements 32-63 the high digits |
| KQuant.Q4PackedValue | src/engine/decode.cu:138-156 | a block packed from 6-bit scales and nibbles dequantizes to scale times nibble less minimum |
| KQuant.Q4WritesOnce | src/engine/decode.cu:132-157 | every output of a row is written at exactly one loop position |
| KQuant.DequantQ4KBlock | src/engine/decode.cu:138-156 | the inner loops write every element's value and nothing else |
| KQuant.DequantQ4KRow | src/engine/decode.cu:126-158 | a row's outputs are the values of its blocks' elements |
| KQuant.Q6Coordinates | src/engine/decode.cu:196-214 | half, quarter and lane identify an element, and its scale is e / 16 |
| KQuant.Q6RoundTrip | src/engine/decode.cu:199-202 | any 256 six-bit quants survive packing into nibbles and 2-bit fields |
| KQuant.Q6Digits | src/engine/decode.cu:199-202 | which digit of `ql` and which two-bit field of `qh` make up an element |
| KQuant.Q6PackedValue | src/engine/decode.cu:196-214 | the signed quant s, packed as s + 32, dequantizes to the block scale times its sub-scale times s |
| KQuant.Q6Lossless | src/engine/decode.cu:199-202 | repacking the quants of a block gives its bytes back |
| KQuant.DequantQ6KHalf | src/engine/decode.cu:196-214 | one pass writes the values of its 128 elements and nothing else |
| KQuant.DequantQ6KRow | src/engine/decode.cu:178-216 | a row's outputs are the values of its blocks' elements |
| Mmq.HostReference | tests/test_mmq_q4k_multiwarp.cu:246-279 | the simple form writes the matrix product of the raw weights and activations (`IsProduct`) |
| Mmq.DotIsTermSum | tests/test_mmq_q4k_multiwarp.cu:246-279 | the dot product, on the raw weights and activations: the sum over all columns of weight element times activation of that token |
| Mmq.OneHotPicks | tests/test_mmq_q4k_multiwarp.cu:199-211 | a token that is one at a single column gets that element of every weight row |
| Mmq.ProductAdds | tests/test_mmq_q4k_multiwarp.cu:213-222 | the product is additive in the activations |
| Mmq.HostDot | tests/test_mmq_q4k_multiwarp.cu:254-275 | its three inner loops accumulate one dot product, which `DotIsTermSum` ties to the raw operands |
| Mmq.TileValue | tests/test_mmq_q4k_multiwarp.cu:171-175 | the kernel's formula gives the weight the row layout defines |
| Mmq.AccumulatorOwner | tests/test_mma_smoke.cu:52-56 | the accumulators of a warp are the cells of its 16 x 8 tile, once each |
| Mmq.LoadScales | tests/test_mmq_q4k_multiwarp.cu:128-145 | 128 threads fill the 16 x 8 scale tables, zero for rows beyond the matrix |
| Mmq.DequantTile | tests/test_mmq_q4k_multiwarp.cu:153-180 | 128 threads fill the 16 x 32 tile with the masked weights of the sub-block |
| Mmq.LoadA | tests/test_mmq_q4k_multiwarp.cu:189-197 | the A fragments hold sixteen columns of the tile |
| Mmq.LoadB | tests/test_mmq_q4k_multiwarp.cu:199-211 | the B fragments hold the activations of the warp's own tokens, zero beyond the last token |
| Mmq.ProductIsDot | tests/test_mmq_q4k_multiwarp.cu:213-222 | sixteen terms of a masked dot product are one row of A times one column of B |
| Mmq.MmaAccumulates | tests/test_mmq_q4k_multiwarp.cu:213-222 | one instruction adds sixteen terms to every accumulator's own dot product |
| Mmq.WarpMmas | tests/test_mmq_q4k_multiwarp.cu:183-223 | two instructions cover the tile's 32 columns |
| Mmq.KLoop | tests/test_mmq_q4k_multiwarp.cu:119-226 | after the loop over weight blocks every accumulator holds its full masked dot product |
| Mmq.WarpWriteback | tests/test_mmq_q4k_multiwarp.cu:228-241 | a warp writes its in-range outputs and no others |
| Mmq.GemmBlock | tests/test_mmq_q4k_multiwarp.cu:101-242 | a block writes the full dot products of its tile and leaves the rest; `DotIsTermSum` ties them to the raw operands |
| Mmq.GemmMmq | tests/test_mmq_q4k_multiwarp.cu:101-242 | the grid writes the matrix product of the raw weights and activations (`IsProduct`) |
| Mmq.TileCellOwner | tests/test_mmq_q4k_multiwarp.cu:158-179 | each tile cell is written by exactly one thread |
| Mmq.ScaleOwner | tests/test_mmq_q4k_multiwarp.cu:130-145 | each scale pair is written by exactly one thread |
| Mmq.OutputOwner | tests/test_mmq_q4k_multiwarp.cu:228-241 | each output belongs to one block, one warp, one lane and one accumulator |
| Mmq.MmqAgreesWithHost | tests/test_mmq_q4k_multiwarp.cu:339-350 | the tiled kernel and the simple form fill equal outputs, for every shape |
| Int8.AbsMaxIsMax | src/kernels/convert.cu:42-55 | the reference maximum is attained and bounds every magnitude |
| Int8.SeenDoubles | src/kernels/convert.cu:49-52 | each xor shuffle doubles the set of lanes a maximum covers |
| Int8.LocalMax | src/kernels/convert.cu:43-47 | a thread's strided loop gives the maximum of its own columns |
| Int8.WarpMax | src/kernels/convert.cu:49-52 | five shuffles leave every lane with the maximum of its warp |
| Int8.RowMax | src/kernels/convert.cu:42-55 | in any order of the atomic maxima the row's true absolute maximum results |
| Int8.BitOrderIsValueOrder | src/kernels/convert.cu:22-25 | comparing bit patterns of non-negative floats compares their values |
| Int8.AtomicMaxOnBits | src/kernels/convert.cu:54 | the integer atomic maximum leaves the bit pattern of the floating maximum |
| Int8.RoundsToNearest | src/kernels/convert.cu:65 | the rounded value is the nearest integer, ties to even, and the only one |
| Int8.QuantizationError | src/kernels/convert.cu:57-66 | the clamp never changes a value and every element is within half a step of its code |
| Int8.QuantizeMonotone | src/kernels/convert.cu:63-67 | codes keep the order of the values |
| Int8.LargestCode | src/kernels/convert.cu:57-66 | the largest magnitude gets code 127 or -127 |
| Int8.ScaleTimes127 | src/kernels/convert.cu:57-60 | the stored scale is the row maximum over 127 |
| Int8.QuantizePass | src/kernels/convert.cu:62-68 | the strided loops write every column's code once and nothing else |
| Int8.Fp16ToInt8Row | src/kernels/convert.cu:26-69 | one block leaves the codes of its row, each within half a step, the scale if asked for, and no other change |
| Int8.Fp16ToInt8 | src/kernels/convert.cu:71-75 | the launch gives every row its codes and its scale and writes nothing beyond the matrix |

## Left out

- Floating-point rounding, exponentials and the attention, projection and norm kernels: batched row operations are taken as equal to their single-row forms, and sums are exact.
- INT8 and overflow-pool generation: whole turns are modelled for FP16 pools without overflow, the default; INT8 quantization and overflow addressing have their own results.
- `KVCachePool::evict` (src/memory/kv_cache.cpp:130): nothing calls it, and its copies assume another layout.
- Engine.Generator.TryHydrateKv: files are taken from a trusted disk, one written by the save path or failing the compatibility checks; a compatible header over a foreign body is not covered, because the code does not recompute the body's size from the shape.
- The CUDA graph, profiling and debug paths.
- Engine.Generator.HouseKeep: which files the budget evicts (src/persistence/kv_cache_file.cpp:348-382) is a parameter; the model covers that removals are harmless and spare the saved file.
- The model fingerprint, which is taken to identify the model.
- A request whose INT8 flag differs from the loaded pool.
- KvFile.SaveKvToFile: rename is atomic and a synced file survives a crash; directory syncs and failing close calls are not modelled.
- Conversations.AnyRunIsTrusted: one turn at a time writes the cache directory.
- Sampling.SampleTopKFast: the repetition penalty and the slow path with top-k disabled, which passes unsorted candidates to the nucleus filter; the exponential and the random number are parameters.
- Tokenizers.Tokenizer.RoundTrip: the vocabulary has all 256 byte symbols, no six-byte `<0x` tokens and ASCII special tokens, and in longest-match mode only tokens of whole codepoints; other vocabularies drop bytes.
- Tokenizers.Tokenizer.DecodeId: what `sscanf` makes of a six-byte `<0x` token is a parameter.
- Reading the vocabulary and the merge list from GGUF metadata (src/engine/tokenizer.cpp:153-287; `Bpe.BuildRanks` models what is made of the list), and the by-length index of all tokens, which nothing uses.
- Bpe.BuildRanks: nothing is promised when a merge line holds a line end before its first blank, which makes two pairs share a key.
- Mmq.GemmMmq: threads run in thread order between barriers and blocks in grid order; the owner lemmas say that no two of them write the same place. Half-precision rounding of the tile and of the outputs is left out.
- KvPool.FastPoolIsPartition: 64-bit overflow of offsets and products is not modelled, here or elsewhere; sizes are those a device can hold.
- The HTTP, JSON and event-stream plumbing, command-line parsing, weight loading and mapping, power, thermal and memory probing, timing and logging.
