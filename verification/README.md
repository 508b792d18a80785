# Brotli codec and string lookup: a verified model

This project models the hard core of two parts of the repository in Dafny and proves what they
are for.

**The bundled Brotli codec (RFC 7932).**

- *Prefix codes* (`PrefixCode`, `HuffmanTable`, `HuffmanRoot`, `HuffmanBuild`, `HuffmanSize`,
  `HuffmanSimple`, `CodeLengths`, `CodeLengthCode`, `TokenReader`, `HuffmanReader`,
  `HuffmanGroup`, `TextCode`, `RunCode`, `TextWriter`). Code lengths are read bit by bit under a space budget into chains of
  symbols; chains become a packed two-level table of reversed keys. The table is proved to be the
  canonical code of section 3.2, its size to fit the allocation, and the whole reading to be
  restartable at every bit and to give back whatever code was written.
- *Bits* (`BitReader`, `BitWriter`, `SymbolReader`, `Restart`, `Streaming`, `BlockLength`,
  `CommandReader`, `CommandWriter`, `MetaBlock`). The 64-bit accumulator and the byte pointer stand for one stream of bits. Steps
  are transactions that complete or leave the reader as it was; with the eight-byte carry-over
  buffer, the result of decoding is that of the whole input however it is cut into pieces.
  Commands that are written, with their block switches, are read back as exactly the same list;
  `MetaBlock` puts the commands read through the ring buffer.
- *LZ77* (`Lz77`, `RingBuffer`, `Distances`, `LzDecoder`). A naive byte-by-byte decoder over an
  unbounded history is the reference. The ring buffer with its speculative 16-byte moves,
  wrapping, growing and partial output, and the ring of four distances with its double roll,
  refine it for whole streams.
- *Distances and context maps* (`DistanceTable`, `ContextMap`, `ContextMapReader`, `MapWriter`). The
  lookup table and the alphabet limit against the formula of section 4; the lazily re-initialised
  inverse move-to-front transform against a fresh list; context maps read from their bits,
  restartable at every bit, and back as they were written.
- *Parsers* (`EncoderReplay`, `GreedyParser`, `StartPosQueue`, `ZopfliPath`, `ZopfliNodes`,
  `ZopfliCost`, `ZopfliParser`). For any match finder that reports only true matches and any costs,
  the commands of both parsers, replayed with the decoder's own semantics, rebuild the input exactly.
  The greedy one uses every match it finds; the other one's path costs what was recorded for it, and
  no command tried anywhere is cheaper than what is recorded where it ends.

**String lookup and growing of the hash tables** (`StrProbe`, `StrTable`, `StrResize`, `StrHash`).
The perturbed open-addressing probe visits every slot, because 5i + 1 has full period modulo 2^k; the
lookup ends and is correct; a table that grows keeps its keys, and it is exact for which hashes a key
is found again whatever else the table holds.

`Arith` and `Wrappers` hold bytes, powers of two, facts about division and an option type. The model is
of the 64-bit little-endian build. Integers are unbounded; registers and fields that wrap do so
explicitly (the accumulator, `space`, the probe's `i` and `perturb`, size_t differences in
`ComputeDistanceCode`). Code outside the model enters as a parameter with a stated contract: the
dictionary as a function from length and address to a transformed word of at most 37 bytes, match
finders as functions that report only true matches, costs as reals.

Where the code and its comments disagree, the model follows the code:

- The comment on `StartPosQueue` says it maintains the smallest eight cost differences. A push
  evicts the eighth entry before it knows whether the newcomer is smaller; seven are right
  (`StartPosQueue.SevenSmallest`, `StartPosQueue.EighthSmallest`, `StartPosQueue.EighthLost`).
- The comments at the two checks for 28 bytes count 156 and 162 bits and 7 bytes of read-ahead.
  The longest large-window distances have 29 extra bits, so up to 161 and 167 bits can be read
  before the next check; 28 bytes and the bit already in the accumulator cover that as well
  (`CommandReader.CommandsChecked`, `Restart.FastTransaction`).
- `frt_h_resize_lookup` keeps all 64 bits of the perturbation, `h_lookup_str` only 32. The two come to
  the same slot at every step if and only if no perturbation differs in the bits that count, which for
  tables of 32 slots and more means a hash of at most 32 bits (`StrProbe.ProbesAgree`,
  `StrProbe.ProbesAgreeLarge`). So a key can be placed where its lookup does not find it
  (`StrResize.LostKey`, with hash 2^32 among eleven keys in 32 slots); `StrResize.FoundExactly` says
  for which hashes that cannot happen, and hashes of at most 32 bits are among them.
- A dictionary may have words that are transformed to nothing. If one has an address below 120, where a
  command can name it without taking a bit, a meta-block need not end (`CommandReader.EmptyWordStalls`);
  otherwise every meta-block does (`CommandReader.EndsExactly`). The built-in dictionary has none
  (`CommandReader.BuiltInProductive`).

## Model

| member | source | states |
|---|---|---|
| Distances.PackedCodes | ext/isomorfeus_ferret_ext/brotli_enc_backward_references.c:36-39 | Each hexadecimal digit of the two packed constants is the short code whose distance is the entry plus or minus 1, 2 or 3. |
| Distances.DistanceCodeRoundTrip | ext/isomorfeus_ferret_ext/brotli_enc_backward_references.c:25-47 | For every distance and cache: a short code chosen by the encoder stands for exactly that distance by section 4 of RFC 7932 and is never given to a dictionary reference; any other code is the distance plus 15; code 0 is chosen exactly for the last distance. |
| Distances.PackedDeltas | ext/isomorfeus_ferret_ext/brotli_dec_decode.c:1480-1490 | The packed deltas of the decoder are -1, 1, -2, 2, -3, 3. |
| Distances.RingPush | ext/isomorfeus_ferret_ext/brotli_dec_decode.c:1962-1963 | Writing the slot at the free-running index and advancing it pushes onto the abstract list of last four distances. |
| Distances.RingLookup | ext/isomorfeus_ferret_ext/brotli_dec_decode.c:1469-1479 | Counting forward from the index modulo four finds the k-th newest distance. |
| Distances.RingRewrite | ext/isomorfeus_ferret_ext/brotli_dec_decode.c:1962-1963 | Rewriting the newest slot after a roll changes nothing: using the last distance again pushes nothing. |
| Distances.DistanceRing.constructor | ext/isomorfeus_ferret_ext/brotli_dec_state.c:74-78 | The ring starts as the cache 4, 11, 15, 16. |
| Distances.DistanceRing.TakeLast | ext/isomorfeus_ferret_ext/brotli_dec_decode.c:1875-1879 | The implicit last distance leaves the abstract cache as it was, with the roll pending. |
| Distances.DistanceRing.TakeDistance | ext/isomorfeus_ferret_ext/brotli_dec_decode.c:1469-1494 | Any short code resolves to its distance by the table of section 4 of RFC 7932, non-positive sums to 0x7FFFFFFF; the cache is unchanged and only code 0 leaves a roll pending. |
| Distances.DistanceRing.Record | ext/isomorfeus_ferret_ext/brotli_dec_decode.c:1961-1963 | A copy pushes its distance, except after a roll, when the cache stays as it was. |
| Distances.DistanceRing.UndoRoll | ext/isomorfeus_ferret_ext/brotli_dec_decode.c:1917-1918 | A dictionary reference leaves the cache as it was before its distance was read. |
| Lz77.CopyFromSplit | ext/isomorfeus_ferret_ext/brotli_dec_decode.c:1996-2008 | A copy may be made in parts, as when the ring fills up in its middle. |
| Lz77.CopyFromBlock | ext/isomorfeus_ferret_ext/brotli_dec_decode.c:1965-1987 | A copy that does not overlap itself appends one block of the history. |
| Lz77.CopyFromPeriod | ext/isomorfeus_ferret_ext/brotli_dec_decode.c:1996-2008 | Every byte of a copy, overlapping or not, equals the byte one distance before it. |
| Lz77.Execute | ext/isomorfeus_ferret_ext/brotli_dec_decode.c:1762-2015 | A command only ever appends to the output, keeps all cached distances positive, and runs on exactly while bytes of the meta-block remain. |
| Lz77.ExecuteAllConserves | ext/isomorfeus_ferret_ext/brotli_dec_decode.c:1782-1995 | Produced bytes plus remaining length stay the same over any run of commands; a meta-block is done exactly when its announced length has been produced. |
| Lz77.DecodeConserves | ext/isomorfeus_ferret_ext/brotli_dec_decode.c:2506-2515 | A successful stream produces exactly the sum of the announced lengths of its meta-blocks. |
| Lz77.ExecuteRecent | ext/isomorfeus_ferret_ext/brotli_dec_decode.c:1955-1963 | A command never caches a distance further back than a copy may reach, the four initial ones apart: dictionary references are not pushed. |
| Lz77.DecodeRecent | ext/isomorfeus_ferret_ext/brotli_dec_decode.c:1955-1963 | So it is throughout every stream, from its start. |
| Lz77.WordNamed | ext/isomorfeus_ferret_ext/brotli_dec_decode.c:1893-1942 | The first distance beyond those of copies names word 0 of a length, the next one word 1, and so on; a word leaves the cache as it is. |
| Lz77.ExecuteAppend | ext/isomorfeus_ferret_ext/brotli_dec_decode.c:1762-2015 | Executing commands in two parts is executing them all. |
| RingBuffer.RingRead | ext/isomorfeus_ferret_ext/brotli_dec_decode.c:1955-2008 | At any distance that decoding allows, the ring byte read is the byte that far back in the unbounded history. |
| RingBuffer.RingClobber | ext/isomorfeus_ferret_ext/brotli_dec_decode.c:1955-1964 | The 16 bytes written ahead of the position, which may run into the slack, spoil nothing that a later read can reach. |
| RingBuffer.Memmove16 | ext/isomorfeus_ferret_ext/brotli_dec_decode.c:170-178 | Sixteen bytes are moved as they were before, wherever the regions lie. |
| RingBuffer.Memcpy | ext/isomorfeus_ferret_ext/brotli_dec_decode.c:1977-1986 | The block copy, which is only ever called on disjoint regions. |
| RingBuffer.TwoMoves | ext/isomorfeus_ferret_ext/brotli_dec_decode.c:1965-1986 | The first 16 bytes and the rest, rounded up to 16 or copied exactly, together move the whole block and touch at most 16 bytes past it. |
| RingBuffer.RingTwoMoves | ext/isomorfeus_ferret_ext/brotli_dec_decode.c:1965-1987 | When neither region wraps and they do not meet, the two moves leave the ring holding the history extended by the copy, within its 42 bytes of slack. |
| RingBuffer.StoreBlock | ext/isomorfeus_ferret_ext/brotli_dec_decode.c:1955-1987 | The fast path either refines the whole byte-by-byte copy or leaves the abstract history as it was. |
| RingBuffer.RingGrow | ext/isomorfeus_ferret_ext/brotli_dec_decode.c:1319-1353 | A larger ring with the output so far and two zero bytes at its end holds the same history. |
| RingBuffer.RingWrap | ext/isomorfeus_ferret_ext/brotli_dec_decode.c:1312-1317 | Moving what lies past the end to the start begins a new turn with the same history. |
| RingBuffer.RingTurn | ext/isomorfeus_ferret_ext/brotli_dec_decode.c:1302-1308 | A ring filled exactly to its end is at the start of its next turn. |
| RingBuffer.OutputRing.WindowIs | ext/isomorfeus_ferret_ext/brotli_dec_decode.c:2200-2204 | The largest distance of a copy is 2 to the power of the window bits, less 16. |
| RingBuffer.OutputRing.UpdateMaxDistance | ext/isomorfeus_ferret_ext/brotli_dec_decode.c:1889-1892 | The distance limit is the length of the whole history, up to 2 to the power of the window bits less 16. |
| RingBuffer.OutputRing.ContextBytes | ext/isomorfeus_ferret_ext/brotli_dec_decode.c:1825-1826 | The two context bytes are the last two of the history, or zero before its start. |
| RingBuffer.OutputRing.PutLiteral | ext/isomorfeus_ferret_ext/brotli_dec_decode.c:1804-1817 | A literal is appended to the history; the ring still refines it. |
| RingBuffer.OutputRing.BlockCopy | ext/isomorfeus_ferret_ext/brotli_dec_decode.c:1955-1987 | Finished: the history is extended by the copy and the position stays in the ring. Not finished: nothing is appended, despite the 16 bytes written. |
| RingBuffer.OutputRing.PutCopy | ext/isomorfeus_ferret_ext/brotli_dec_decode.c:1997-2002 | One byte from that far back in the history is appended. |
| RingBuffer.OutputRing.WrapCopy | ext/isomorfeus_ferret_ext/brotli_dec_decode.c:1996-2008 | As many bytes of the copy are appended as fit the ring; what is left is returned. |
| RingBuffer.OutputRing.PutWord | ext/isomorfeus_ferret_ext/brotli_dec_decode.c:1923-1938 | A dictionary word is appended even when it runs past the end into the slack. |
| RingBuffer.OutputRing.UnwrittenBytes | ext/isomorfeus_ferret_ext/brotli_dec_decode.c:1257-1262 | How many bytes are produced but not handed out, counted up to the ring's end, and where they lie in the ring. |
| RingBuffer.OutputRing.HandOut | ext/isomorfeus_ferret_ext/brotli_dec_decode.c:1270-1294 | The bytes handed out are the next ones of the history: emitted output is always a prefix of what was produced. |
| RingBuffer.OutputRing.WriteRingBuffer | ext/isomorfeus_ferret_ext/brotli_dec_decode.c:1264-1310 | Hands out the next bytes in order and once each; it asks for more room only when bytes are left and the ring is of full size or it is forced; only a full-size ring that was handed out starts a new turn. |
| RingBuffer.OutputRing.WrapRingBuffer | ext/isomorfeus_ferret_ext/brotli_dec_decode.c:1312-1317 | What lay past the end is at the start, and the ring refines the same history. |
| RingBuffer.OutputRing.Flush | ext/isomorfeus_ferret_ext/brotli_dec_decode.c:2469-2482 | Whatever room the client offers, the ring is handed out and wrapped without losing a byte; it fails exactly when the meta-block is overfull. |
| RingBuffer.OutputRing.FlushAll | ext/isomorfeus_ferret_ext/brotli_dec_decode.c:2528-2536 | At the end of the stream, everything produced has been handed out. |
| RingBuffer.OutputRing.constructor | ext/isomorfeus_ferret_ext/brotli_dec_state.c:66-73 | The empty output refines the empty history. |
| RingBuffer.OutputRing.CalculateRingBufferSize | ext/isomorfeus_ferret_ext/brotli_dec_decode.c:1406-1449 | The size chosen is the window, or the smallest power of two that holds the rest of the meta-block if the allocation is canny; it never shrinks. |
| RingBuffer.OutputRing.EnsureRingBuffer | ext/isomorfeus_ferret_ext/brotli_dec_decode.c:1319-1353 | Growing keeps the history, what was handed out and the position. |
| LzDecoder.Decoder.DecodeLiterals | ext/isomorfeus_ferret_ext/brotli_dec_decode.c:1788-1869 | Literals are appended whatever flushes happen in between; failure means the meta-block is overfull. |
| LzDecoder.Decoder.DecodeDistance | ext/isomorfeus_ferret_ext/brotli_dec_decode.c:1871-1888 | The distance is the one the reference resolves, and the cache is unchanged until the copy is recorded. |
| LzDecoder.Decoder.CopyBytes | ext/isomorfeus_ferret_ext/brotli_dec_decode.c:1955-2015 | Fast path and wrapping loop together append exactly the naive byte-by-byte copy, with a flush at every turn. |
| LzDecoder.Decoder.Word | ext/isomorfeus_ferret_ext/brotli_dec_decode.c:1923-1942 | A dictionary word is appended, flushed at once when it fills or overruns the ring. |
| LzDecoder.Decoder.CopyOrWord | ext/isomorfeus_ferret_ext/brotli_dec_decode.c:1889-1995 | Copy, dictionary word or error: history, cache, remaining length and error kind are those of the reference. |
| LzDecoder.Decoder.ExecuteCommand | ext/isomorfeus_ferret_ext/brotli_dec_decode.c:1762-2015 | One command takes the decoder to exactly the state the reference decoder is in. |
| LzDecoder.Decoder.ProcessCommands | ext/isomorfeus_ferret_ext/brotli_dec_decode.c:1734-2021 | Any sequence of commands takes the decoder to exactly the state of the reference decoder whose copies reach back 2^bits - 16. |
| LzDecoder.Decoder.CopyUncompressed | ext/isomorfeus_ferret_ext/brotli_dec_decode.c:1355-1404 | An uncompressed meta-block is appended whole, however its bytes arrive. |
| LzDecoder.Decoder.BeginBlock | ext/isomorfeus_ferret_ext/brotli_dec_decode.c:1406-1449 | The ring fits the meta-block or is of full size; history and output are kept. |
| LzDecoder.Decoder.DecodeBlock | ext/isomorfeus_ferret_ext/brotli_dec_decode.c:2218-2515 | A meta-block of any kind takes the decoder to the reference's state. |
| LzDecoder.Decoder.DecodeStream | ext/isomorfeus_ferret_ext/brotli_dec_decode.c:2069-2540 | A stream is accepted exactly when the reference accepts it, with copies that reach back 2^bits - 16; then the bytes handed out are exactly those of the naive decoder, as many as the meta-blocks announce. |
| PrefixCode.PrefixFree | ext/isomorfeus_ferret_ext/brotli_dec_huffman.c:169-259 | At most one codeword of a canonical code (section 3.2 of RFC 7932) starts a window of bits. |
| PrefixCode.OwnerUnique | ext/isomorfeus_ferret_ext/brotli_dec_huffman.c:169-259 | In a complete code exactly one codeword starts each window, however it continues. |
| PrefixCode.CodewordOrder | ext/isomorfeus_ferret_ext/brotli_dec_huffman.c:169-259 | Shorter codewords come before longer ones as bit strings, whatever follows them; with completeness this leaves one code for given lengths. |
| PrefixCode.RevStep | ext/isomorfeus_ferret_ext/brotli_dec_huffman.c:78-88 | The table indices that end in a reversed codeword are exactly those whose bits start with it. |
| HuffmanTable.DecodeCorrect | ext/isomorfeus_ferret_ext/brotli_dec_decode.c:350-364 | Looking any window up in a two-level table of a complete code finds the symbol of the one codeword that starts it, and its length. |
| HuffmanTable.DecodeAgrees | ext/isomorfeus_ferret_ext/brotli_dec_decode.c:350-364 | The lookup is exact for every code, including those of a single symbol with no bits. |
| HuffmanTable.LookupPrefix | ext/isomorfeus_ferret_ext/brotli_dec_decode.c:350-364 | No bit beyond the codeword matters. |
| HuffmanTable.SafeDecodeExact | ext/isomorfeus_ferret_ext/brotli_dec_decode.c:375-413 | With few bits left, decoding succeeds if and only if the whole codeword is there, and then agrees with the fast lookup in symbol and length. |
| HuffmanRoot.ReplicateValue | ext/isomorfeus_ferret_ext/brotli_dec_huffman.c:78-88 | Exactly the entries congruent to the start modulo the step are written. |
| HuffmanRoot.FillRoot | ext/isomorfeus_ferret_ext/brotli_dec_huffman.c:201-221 | The root holds, at every index that starts with a codeword of at most the table's bits, that codeword's entry. |
| HuffmanRoot.NextTableBitSize | ext/isomorfeus_ferret_ext/brotli_dec_huffman.c:90-102 | The width returned is the first at which the slot's codewords fill it. |
| HuffmanRoot.TableBitSize | ext/isomorfeus_ferret_ext/brotli_dec_huffman.c:90-102 | That width is the longest codeword of the slot less eight. |
| HuffmanBuild.MaxLength | ext/isomorfeus_ferret_ext/brotli_dec_huffman.c:193-194 | The longest length in use is found from the chain heads. |
| HuffmanBuild.ReplicateRoot | ext/isomorfeus_ferret_ext/brotli_dec_huffman.c:223-228 | Doubling a short root gives the whole root. |
| HuffmanBuild.LinkTable | ext/isomorfeus_ferret_ext/brotli_dec_huffman.c:237-248 | A new second-level table is linked at the slot of the next codeword and has the slot's size. |
| HuffmanBuild.PlaceSymbol | ext/isomorfeus_ferret_ext/brotli_dec_huffman.c:236-254 | A long codeword gets its entries in the table of its slot, and all earlier entries stay. |
| HuffmanBuild.BuildHuffmanTable | ext/isomorfeus_ferret_ext/brotli_dec_huffman.c:169-259 | For every complete set of code lengths 1 to 15 the table built represents its canonical code, its size is the root plus the slots' tables, and nothing outside it is written. |
| HuffmanSize.SlotsBound | ext/isomorfeus_ferret_ext/brotli_dec_huffman.c:230-258 | Summed over slots, what second-level tables need beyond one entry per codeword telescopes over disjoint ranges of lengths. |
| HuffmanSize.FewShortCodes | ext/isomorfeus_ferret_ext/brotli_dec_huffman.c:169-259 | A code that leaves much space after its short codewords has few of them. |
| HuffmanSize.TableSizeBound | ext/isomorfeus_ferret_ext/brotli_dec_huffman.h:21-26 | For every complete code of n symbols the table has at most n + 376 entries; at most 396, 632 and 646 for 26, 258 and 272 symbols. |
| HuffmanSimple.SortFour | ext/isomorfeus_ferret_ext/brotli_dec_huffman.c:294-303 | Four symbols end up sorted, with nothing else moved. |
| HuffmanSimple.BuildSimpleHuffmanTable | ext/isomorfeus_ferret_ext/brotli_dec_huffman.c:261-335 | For each of the five kinds of simple code (section 3.4 of RFC 7932) the table describes the code of exactly these symbols. |
| CodeLengths.UsedNext | ext/isomorfeus_ferret_ext/brotli_dec_decode.c:522-533 | One more code length takes exactly its share of the code space. |
| CodeLengths.UsedBound | ext/isomorfeus_ferret_ext/brotli_dec_decode.c:522-533 | The space used never reaches 2^32, so a space that wraps below zero cannot come back to zero. |
| CodeLengths.TailFresh | ext/isomorfeus_ferret_ext/brotli_dec_decode.c:522-533 | The end of a chain is not an entry of any chain, so appending to one disturbs no other. |
| CodeLengths.LinkedChain | ext/isomorfeus_ferret_ext/brotli_dec_decode.c:522-533 | Following the links of a length gives its symbols. |
| CodeLengths.PositionsExact | ext/isomorfeus_ferret_ext/brotli_dec_decode.c:522-533 | These are exactly the symbols of the length, in increasing order. |
| CodeLengths.CompleteLists | ext/isomorfeus_ferret_ext/brotli_dec_decode.c:852-857 | Lengths that use the space exactly make a complete code, with the chains table building needs. |
| CodeLengths.LengthReader.Reset | ext/isomorfeus_ferret_ext/brotli_dec_decode.c:826-836 | The reading state stands for no lengths, whatever an earlier code has left in the arrays. |
| CodeLengths.LengthReader.ProcessSingle | ext/isomorfeus_ferret_ext/brotli_dec_decode.c:512-533 | The fields stand for the lengths extended by one: chains, histogram and space. |
| CodeLengths.LengthReader.EnterRun | ext/isomorfeus_ferret_ext/brotli_dec_decode.c:576-583 | All symbols of a run are appended to their chain, in order. |
| CodeLengths.LengthReader.UpdateRepeat | ext/isomorfeus_ferret_ext/brotli_dec_decode.c:551-567 | The run grows by section 3.5 of RFC 7932, its old length scaled by 4 or 8. |
| CodeLengths.LengthReader.ProcessRepeated | ext/isomorfeus_ferret_ext/brotli_dec_decode.c:535-590 | The fields stand for the lengths extended by the run, or it passes the alphabet and leaves a space that is refused. |
| CodeLengths.LengthReader.SpaceLeft | ext/isomorfeus_ferret_ext/brotli_dec_decode.c:852-855 | The space is zero if and only if the code space is used exactly. |
| RunCode.RunsExact | ext/isomorfeus_ferret_ext/brotli_dec_decode.c:535-590 | Runs are a numeration: every count from 3 on is that of exactly one nonempty sequence of tokens 16, with four extra values each, and of exactly one of tokens 17, with eight; no sequence has another count, and all lengths of a run are the same. |
| RunCode.TokensPlain | ext/isomorfeus_ferret_ext/brotli_dec_decode.c:593-641 | Lengths spelled as single ones, runs of the last nonzero one and runs of zeros are what their tokens expand to. |
| CodeLengthCode.FixedTables | ext/isomorfeus_ferret_ext/brotli_dec_decode.c:52-59 | The two static tables are the fixed code of section 3.5 of RFC 7932: an index names the one length whose codeword it starts with. |
| CodeLengthCode.OrderOnce | ext/isomorfeus_ferret_ext/brotli_dec_decode.c:48-50 | The static order names every code length code once. |
| CodeLengthCode.ReadLengthsMore | ext/isomorfeus_ferret_ext/brotli_dec_decode.c:690-735 | Reading the code length code lengths may stop at any bit and go on later with the same result. |
| CodeLengthCode.Collector.Take | ext/isomorfeus_ferret_ext/brotli_dec_decode.c:717-729 | A length takes its share of a space of 32; the wrap-around test stops exactly when the space is used up or exceeded, and zero means used exactly. |
| CodeLengthCode.Collector.ReadCodeLengthCodeLengths | ext/isomorfeus_ferret_ext/brotli_dec_decode.c:690-735 | Success, failure and waiting are those of the reference reader on the stream of bits, with the same lengths and the same bits left; it waits only when all input is taken. |
| CodeLengthCode.Peek | ext/isomorfeus_ferret_ext/brotli_dec_decode.c:702-716 | Four bits, or all that is left with zeros above, without losing any. |
| CodeLengthCode.PlacesApart | ext/isomorfeus_ferret_ext/brotli_dec_huffman.c:121-139 | By the offsets, no two symbols share a place. |
| CodeLengthCode.SortSymbols | ext/isomorfeus_ferret_ext/brotli_dec_huffman.c:121-139 | Symbols end up by length and, within a length, in increasing order; what is left of offset 0 counts the used ones. |
| CodeLengthCode.BuildCodeLengthsHuffmanTable | ext/isomorfeus_ferret_ext/brotli_dec_huffman.c:104-167 | The one-level table of 32 entries gives, for any five bits, the symbol and length of the canonical code of these lengths; a single symbol takes no bits. |
| TokenReader.SmallLookup | ext/isomorfeus_ferret_ext/brotli_dec_decode.c:620-624 | Five bits are enough to look up any token. |
| TokenReader.TokenMore | ext/isomorfeus_ferret_ext/brotli_dec_decode.c:656-685 | A token that is there in full is not changed by more input. |
| TokenReader.ReadTokensMore | ext/isomorfeus_ferret_ext/brotli_dec_decode.c:643-688 | Reading code lengths may stop at any bit and go on later with the same result. |
| TextWriter.TokenRead | ext/isomorfeus_ferret_ext/brotli_dec_decode.c:656-685 | A token written as its symbol's codeword and its extra bits is read back. |
| TextWriter.TokensRead | ext/isomorfeus_ferret_ext/brotli_dec_decode.c:643-688 | Tokens that use the code space up with their last length are read back, whatever follows them. |
| TextWriter.LengthsRead | ext/isomorfeus_ferret_ext/brotli_dec_decode.c:690-735 | Code length code lengths written with the fixed code, in their order until the space is used up, are read back, however many zeros are skipped first. |
| TextWriter.DraftRead | ext/isomorfeus_ferret_ext/brotli_dec_decode.c:748-870 | A prefix code written as a simple code, or as code length code lengths and the tokens of its lengths, is read back as exactly these symbols or lengths, and nothing behind it is touched. |
| TokenReader.NextToken | ext/isomorfeus_ferret_ext/brotli_dec_decode.c:656-685 | A token is taken if and only if the accumulator holds all of it and its extra bits; otherwise nothing is dropped. |
| TokenReader.ReadSymbolCodeLengths | ext/isomorfeus_ferret_ext/brotli_dec_decode.c:593-641 | The fast loop follows the reference reader; it stops early only in a state from which the reference goes on to the same result. |
| TokenReader.SafeReadSymbolCodeLengths | ext/isomorfeus_ferret_ext/brotli_dec_decode.c:643-688 | The byte-by-byte loop ends as the reference does, with the same lengths and bits left; it waits only when the next token is incomplete and all input is taken. |
| HuffmanReader.Log2Floor | ext/isomorfeus_ferret_ext/brotli_dec_decode.c:463-470 | The number of bits of a number. |
| HuffmanReader.CodewordsBound | ext/isomorfeus_ferret_ext/brotli_dec_state.c:140-144 | A code has no more codewords than its alphabet has symbols. |
| HuffmanReader.BuildComplex | ext/isomorfeus_ferret_ext/brotli_dec_decode.c:852-863 | Lengths that use the space exactly give a table of their canonical code, of at most the alphabet plus 376 entries. |
| HuffmanReader.ResumeMore | ext/isomorfeus_ferret_ext/brotli_dec_decode.c:748-870 | A prefix code may be cut at any bit, in any of its phases: stopping and going on reads the same code and leaves the same bits. |
| HuffmanReader.CodeReader.ReadSimpleSymbols | ext/isomorfeus_ferret_ext/brotli_dec_decode.c:472-510 | Symbols are refused exactly when one is outside the alphabet or occurs twice; otherwise it waits or goes on as the reference does. |
| HuffmanReader.CodeReader.AllDistinct | ext/isomorfeus_ferret_ext/brotli_dec_decode.c:500-507 | Whether the symbols read are all different. |
| HuffmanReader.CodeReader.ReadLengthSymbols | ext/isomorfeus_ferret_ext/brotli_dec_decode.c:841-855 | The two loops together accept, refuse or wait exactly as the reference does. |
| HuffmanReader.CodeReader.BuildSimple | ext/isomorfeus_ferret_ext/brotli_dec_decode.c:796-814 | The table describes the code of the symbols read, or one more bit is waited for. |
| HuffmanReader.CodeReader.ReadHuffmanCode | ext/isomorfeus_ferret_ext/brotli_dec_decode.c:748-870 | From any phase: got, malformed or waiting exactly as sections 3.4 and 3.5 of RFC 7932 say of the bits; a code got is described by the table, which fits the alphabet plus 376 entries, and nothing else is written; waiting writes nothing. |
| HuffmanGroup.ResumeGroupMore | ext/isomorfeus_ferret_ext/brotli_dec_decode.c:962-981 | A whole group may be cut anywhere with the same result. |
| HuffmanGroup.GroupReader.constructor | ext/isomorfeus_ferret_ext/brotli_dec_state.c:136-154 | The allocation has alphabet plus 376 entries a tree. |
| HuffmanGroup.GroupReader.Decode | ext/isomorfeus_ferret_ext/brotli_dec_decode.c:962-981 | All trees of the group are read as the reference reads them, each behind the one before it, all within the allocation, and each is intact at the end; a group that waits goes on from there. |
| BitReader.FillXor | ext/isomorfeus_ferret_ext/brotli_dec_bit_reader.h:107-131 | From the stride on, the exclusive or is a subtraction if and only if the bit position is below 64, that is, if the accumulator holds at least one bit. |
| BitReader.FillBits | ext/isomorfeus_ferret_ext/brotli_dec_bit_reader.h:107-131 | Bytes loaded above the unread bits extend the stream by exactly their bits. |
| BitReader.Reader.PullByte | ext/isomorfeus_ferret_ext/brotli_dec_bit_reader.h:163-179 | The abstract stream is unchanged; it fails exactly at the end of input. |
| BitReader.Reader.FillBitWindow | ext/isomorfeus_ferret_ext/brotli_dec_bit_reader.h:107-161 | The stream is unchanged and more than n bits are in the accumulator, with all loads within the input. |
| BitReader.Reader.DropBits | ext/isomorfeus_ferret_ext/brotli_dec_bit_reader.h:217-221 | The first n bits of the stream are gone and no others. |
| BitReader.Reader.TakeBits | ext/isomorfeus_ferret_ext/brotli_dec_bit_reader.h:236-244 | The result is the number the first n bits of the stream make; they are gone and no others. |
| BitReader.Reader.ReadBits | ext/isomorfeus_ferret_ext/brotli_dec_bit_reader.h:246-286 | After a fill, the result is the number the first n bits of the stream make; only they are gone, and a bit is left in the accumulator. |
| BitReader.Reader.PullUntil | ext/isomorfeus_ferret_ext/brotli_dec_bit_reader.h:204-215 | Succeeds exactly when the stream has n bits; failing that, all input is in the accumulator. |
| BitReader.Reader.SafeReadBits | ext/isomorfeus_ferret_ext/brotli_dec_bit_reader.h:288-318 | Succeeds exactly when the stream has n bits, and otherwise keeps them all. |
| BitReader.Reader.Warmup | ext/isomorfeus_ferret_ext/brotli_dec_bit_reader.c:34-55 | Succeeds exactly when the stream is not empty; it is unchanged. |
| BitReader.Reader.Restore | ext/isomorfeus_ferret_ext/brotli_dec_bit_reader.h:74-80 | The reader is exactly as it was saved. |
| BitReader.Reader.Unload | ext/isomorfeus_ferret_ext/brotli_dec_bit_reader.h:223-234 | Whole unread bytes go back to the input, the stream is unchanged and less than a byte stays in the accumulator. |
| BitReader.Reader.JumpToByteBoundary | ext/isomorfeus_ferret_ext/brotli_dec_bit_reader.h:320-329 | The bits up to the byte boundary are dropped, and it succeeds exactly when they are zero. |
| BitReader.Reader.CopyBytes | ext/isomorfeus_ferret_ext/brotli_dec_bit_reader.h:331-345 | The bytes copied are exactly the next ones of the stream, whether they come from the accumulator or the input. |
| BitReader.ShiftOut | ext/isomorfeus_ferret_ext/brotli_dec_bit_reader.h:223-234 | Shifting the register keeps the bits that stay. |
| SymbolReader.HasSymbolMore | ext/isomorfeus_ferret_ext/brotli_dec_decode.c:415-423 | More input does not change a symbol that is there. |
| BitWriter.SpellRead | ext/isomorfeus_ferret_ext/brotli_dec_decode.c:415-423 | The codeword of a symbol, written first bit first, is read back as that symbol, with nothing behind it touched. |
| BitWriter.SpellApart | ext/isomorfeus_ferret_ext/brotli_dec_decode.c:415-423 | No codeword of a code is the beginning of another. |
| BitWriter.BitsRead | ext/isomorfeus_ferret_ext/brotli_dec_bit_reader.h:288-318 | A number written in n bits is read back. |
| SymbolReader.ReadSymbol | ext/isomorfeus_ferret_ext/brotli_dec_decode.c:366-371 | The symbol is that of the codeword at the start of the stream, and exactly its bits are dropped. |
| SymbolReader.SafeReadSymbol | ext/isomorfeus_ferret_ext/brotli_dec_decode.c:415-423 | Succeeds if and only if some codeword is a prefix of all the bits left, agrees with the fast path, and otherwise loses no bit. |
| Restart.Machine.ParseMore | ext/isomorfeus_ferret_ext/brotli_dec_decode.c:1139-1147 | A transaction that has all its bits is not changed by more input. |
| Restart.Machine.ParseLess | ext/isomorfeus_ferret_ext/brotli_dec_decode.c:1644-1650 | A transaction looks at no bit beyond those it takes. |
| Restart.Machine.RunSplit | ext/isomorfeus_ferret_ext/brotli_dec_decode.c:2097-2166 | Running on a part of the input and then on the rest is running on all of it. |
| Restart.Machine.FutureEnd | ext/isomorfeus_ferret_ext/brotli_dec_decode.c:2097-2166 | A machine that waits or is done, with the same future as the start, is where the reference run ends. |
| Restart.SafeRead | ext/isomorfeus_ferret_ext/brotli_dec_decode.c:1692-1696 | A safe read fails exactly when its bits are not there. |
| Restart.SafeTransaction | ext/isomorfeus_ferret_ext/brotli_dec_decode.c:1666-1702 | A step with safe reads happens exactly when all its bits are there; otherwise the stream is as before, and either all input is in the accumulator or the reader is exactly as it was saved. |
| Restart.FastTransaction | ext/isomorfeus_ferret_ext/brotli_dec_decode.c:1714-1732 | With 28 bytes checked often enough, no fast read runs out of input, and the outcome is that of the safe step. |
| Streaming.StuckThen | ext/isomorfeus_ferret_ext/brotli_dec_decode.c:2111-2121 | The transaction that did not fit what was held takes all of it once it completes, so the byte buffer is used up. |
| Streaming.StuckShort | ext/isomorfeus_ferret_ext/brotli_dec_decode.c:2122-2147 | A transaction that waits holds less than 64 bits, so eight bytes of buffer are enough. |
| Streaming.CarryBytes | ext/isomorfeus_ferret_ext/brotli_dec_decode.c:2153-2164 | When the buffer is left, the whole bytes in the accumulator are the last ones taken from the caller. |
| Streaming.StreamDecoder.ReadStep | ext/isomorfeus_ferret_ext/brotli_dec_decode.c:2463-2467 | Fast path and safe path together make progress, or wait in the state before the step with no bit lost. |
| Streaming.StreamDecoder.TakeByte | ext/isomorfeus_ferret_ext/brotli_dec_decode.c:2122-2132 | One more byte fits the buffer and extends the stream by exactly its bits. |
| Streaming.StreamDecoder.CopyTail | ext/isomorfeus_ferret_ext/brotli_dec_decode.c:2136-2147 | What waits goes into the buffer, and no bit of it is lost. |
| Streaming.StreamDecoder.GiveBack | ext/isomorfeus_ferret_ext/brotli_dec_decode.c:2157-2164 | Unread whole bytes go back to the caller; what stays and what goes back is the stream as it was. |
| Streaming.StreamDecoder.Decompress | ext/isomorfeus_ferret_ext/brotli_dec_decode.c:2069-2166 | A call keeps the future of what was held and given; it asks for input only when all of it is taken and no step fits, for output room only when there is none and a write is due. |
| Streaming.StreamDecoder.DecompressAll | ext/isomorfeus_ferret_ext/brotli_dec_decode.c:2069-2166 | Final state, bits left and result are those of the reference run on the whole input, however it is cut into pieces. |
| BlockLength.RangesTile | ext/isomorfeus_ferret_ext/brotli_common_constants.c:9-15 | The ranges of block lengths follow each other from 1 on without a gap. |
| BlockLength.LengthCoded | ext/isomorfeus_ferret_ext/brotli_common_constants.c:9-15 | Every block length below 16625 + 2^24 has exactly one symbol. |
| BlockLength.ResumeLengthMore | ext/isomorfeus_ferret_ext/brotli_dec_decode.c:884-908 | A block length may be cut at any bit, between its symbol and its extra bits as well, with the same result. |
| BlockLength.LengthInRange | ext/isomorfeus_ferret_ext/brotli_dec_decode.c:873-880 | A length that is read lies in the range of its symbol. |
| BlockLength.LengthRead | ext/isomorfeus_ferret_ext/brotli_dec_decode.c:884-908 | A length written as the symbol of its range and its place in the range is read back. |
| BlockLength.LengthReader.SafeReadBlockLength | ext/isomorfeus_ferret_ext/brotli_dec_decode.c:884-908 | From either state it gives the length that the bits say, or waits with its symbol kept and no bit lost. |
| CommandReader.CommandsValid | ext/isomorfeus_ferret_ext/brotli_dec_decode.c:1666-1702 | Every step of reading a command takes at most 63 bits, within what the accumulator can restart. |
| CommandReader.CommandsChecked | ext/isomorfeus_ferret_ext/brotli_dec_decode.c:1766-1798 | Between two checks for 28 bytes the fast path takes at most 167 bits. |
| CommandReader.CommandsProgress | ext/isomorfeus_ferret_ext/brotli_dec_decode.c:1762-2015 | Unless the dictionary has an empty word at an address below 120, no run of any meta-block goes on forever without input: every step that takes no bit ends the meta-block, puts out a byte or brings the command nearer its end. |
| CommandReader.NearAddress | ext/isomorfeus_ferret_ext/brotli_dec_decode.c:1889-1963 | A distance read without a bit, from the cache or a direct one, can only name a word at an address below 120, because cached distances reach no further back than a copy may. |
| CommandReader.BuiltInProductive | ext/isomorfeus_ferret_ext/brotli_common_dictionary.c:5871-5877 | The built-in dictionary has no empty word there: its addresses below 120 are words as they are, or words too long for a transform to leave nothing of them. |
| CommandReader.EmptyWordStalls | ext/isomorfeus_ferret_ext/brotli_dec_decode.c:1923-1942 | From the start of a stream, with one-symbol codes for commands and distances and NDIRECT 120, an empty word at such an address makes two steps lead back to where they began, one command later, whatever the input. |
| CommandReader.EndsExactly | ext/isomorfeus_ferret_ext/brotli_dec_decode.c:1923-1942 | Reading ends on every meta-block of a dictionary if and only if it has no empty word at an address below 120. |
| CommandWriter.SwitchNames | ext/isomorfeus_ferret_ext/brotli_dec_decode.c:1149-1160 | Code 0 switches to the type before, code 1 to the type after the current one, and any type has a code two above it. |
| CommandWriter.ChangeRead | ext/isomorfeus_ferret_ext/brotli_dec_decode.c:1119-1147 | A block switch written as the code of its type, the symbol of its length's range and the place in the range is read back, in any category. |
| CommandWriter.LengthsRead | ext/isomorfeus_ferret_ext/brotli_dec_decode.c:1666-1702 | A command written as its symbol, then the bits of its insert length and then those of its copy length is read as exactly these lengths. |
| CommandWriter.LiteralsRead | ext/isomorfeus_ferret_ext/brotli_dec_decode.c:1788-1869 | Literals, each written in its block and in the tree for the bytes before it, are read back, and end the meta-block when they complete it. |
| CommandWriter.DistanceRead | ext/isomorfeus_ferret_ext/brotli_dec_decode.c:1617-1664 | A distance written as a short code, or by the formula of section 4 of RFC 7932 with its extra bits, or not at all when implied, is read back. |
| CommandWriter.PlanRead | ext/isomorfeus_ferret_ext/brotli_dec_decode.c:1762-2015 | A command that is written is read back and executed, and the reader is where the writer is. |
| CommandWriter.PlansRead | ext/isomorfeus_ferret_ext/brotli_dec_decode.c:1734-2021 | Any list of commands, written with the block switches that become due, is read back as exactly that list and executed; nothing behind it is touched. |
| CommandWriter.WrittenRead | ext/isomorfeus_ferret_ext/brotli_dec_decode.c:1734-2021 | When the commands end the meta-block, reading stops right behind them. |
| Restart.Machine.ParseScript | ext/isomorfeus_ferret_ext/brotli_dec_decode.c:1666-1702 | A transaction that happens commits after some reads of its script. |
| MetaBlock.RunFollows | ext/isomorfeus_ferret_ext/brotli_dec_decode.c:1734-2021 | Wherever reading stops, the output is that of executing the commands read so far on the output at the start. |
| MetaBlock.DecodeCommands | ext/isomorfeus_ferret_ext/brotli_dec_decode.c:1734-2021 | The commands of any meta-block are read and executed to the same state however the input is cut; waiting holds less than 64 bits; commands that were written are exactly those executed, and what follows them is left. |
| MetaBlock.BlockDecoder.Execute | ext/isomorfeus_ferret_ext/brotli_dec_decode.c:1762-2015 | Commands read since the last call, executed over the ring buffer, bring it to the output of the reference run. |
| MetaBlock.BlockDecoder.Feed | ext/isomorfeus_ferret_ext/brotli_dec_decode.c:2069-2166 | After any piece of input the ring buffer holds the output of the reference run on all input so far, and the bits left are those of that run. |
| MetaBlock.BlockDecoder.FeedAll | ext/isomorfeus_ferret_ext/brotli_dec_decode.c:2069-2166 | So it does after any pieces: state, output and bits left are those of the run on the whole input. |
| MetaBlock.DecodeMetaBlock | ext/isomorfeus_ferret_ext/brotli_dec_decode.c:1734-2166 | From bytes in any pieces to the ring buffer: its history, cache, remaining length and status are those of the naive decoder on the commands that the bits say, which are the commands written if any were; copies reach back 2^bits - 16; a complete meta-block leaves it ready for the next. |
| DistanceTable.GroupNext | ext/isomorfeus_ferret_ext/brotli_dec_decode.c:1597-1614 | Groups of distances tile the numbers: each starts where the one before it ends. |
| DistanceTable.EncodeDecode | ext/isomorfeus_ferret_ext/brotli_dec_decode.c:1583-1615 | Every distance from 1 has a code of 16 or more with extra bits, and decoding it gives the distance back, for every NPOSTFIX and NDIRECT. |
| DistanceTable.DecodeEncode | ext/isomorfeus_ferret_ext/brotli_dec_decode.c:1583-1615 | No distance has a second such form. |
| DistanceTable.DistanceSteps | ext/isomorfeus_ferret_ext/brotli_dec_decode.c:1583-1615 | Successive extra values of a code are 2^NPOSTFIX apart, successive codes of a group one apart. |
| DistanceTable.AlphabetCovers | ext/isomorfeus_ferret_ext/brotli_common_constants.h:110-126 | An alphabet of whole groups has exactly the distances up to its top. |
| DistanceTable.CalculateDistanceLut | ext/isomorfeus_ferret_ext/brotli_dec_decode.c:1583-1615 | Every entry below the limit gives, for all its extra bits, the distance of section 4 of RFC 7932. |
| DistanceTable.HighestGroup | ext/isomorfeus_ferret_ext/brotli_common_constants.h:151-162 | The highest bit and the one below it select the group of a number. |
| DistanceTable.ExtraBound | ext/isomorfeus_ferret_ext/brotli_common_constants.h:110-126 | No code that stays within the largest allowed distance has more than 29 extra bits, for every NPOSTFIX and NDIRECT. |
| DistanceTable.DirectBound | ext/isomorfeus_ferret_ext/brotli_dec_decode.c:2352-2360 | There are at most 120 direct distances. |
| DistanceTable.CalculateDistanceCodeLimit | ext/isomorfeus_ferret_ext/brotli_common_constants.h:127-187 | The alphabet returned has exactly the distances up to the top returned, none above the limit, and one more group would pass it. |
| ContextMap.InverseForward | ext/isomorfeus_ferret_ext/brotli_dec_decode.c:910-959 | The inverse transform undoes the forward one. |
| ContextMap.ForwardInverse | ext/isomorfeus_ferret_ext/brotli_dec_decode.c:910-959 | The forward transform undoes the inverse one, on a list without duplicates. |
| ContextMap.InverseBounded | ext/isomorfeus_ferret_ext/brotli_dec_decode.c:1099-1110 | Indices below n name values below n. |
| ContextMap.OrBelow | ext/isomorfeus_ferret_ext/brotli_dec_decode.c:945-949 | The bits or-ed together stay below the power of two that bounds them all. |
| ContextMap.MoveToFront.constructor | ext/isomorfeus_ferret_ext/brotli_dec_state.c:82-82 | Any memory will do to start with. |
| ContextMap.MoveToFront.Reinitialize | ext/isomorfeus_ferret_ext/brotli_dec_decode.c:926-942 | Re-initialising only up to the remembered bound gives the identity list. |
| ContextMap.MoveToFront.ToFront | ext/isomorfeus_ferret_ext/brotli_dec_decode.c:951-955 | The entry is at the front and the ones before it have moved up by one; nothing behind it is touched. |
| ContextMap.MoveToFront.TransformOne | ext/isomorfeus_ferret_ext/brotli_dec_decode.c:946-956 | The index is replaced by the value it names, which moves to the front; entries past the bound are untouched. |
| ContextMap.MoveToFront.InverseTransform | ext/isomorfeus_ferret_ext/brotli_dec_decode.c:924-959 | Any call, after any others, gives what a fresh 256-entry list gives. |
| TextCode.GivesCode | ext/isomorfeus_ferret_ext/brotli_dec_decode.c:748-870 | What is read of a prefix code determines the code that its table describes: there is one canonical code for it. |
| TextCode.LookupBelow | ext/isomorfeus_ferret_ext/brotli_dec_decode.c:748-870 | Every symbol of that code is of its alphabet. |
| ContextMapReader.ResumeBelow | ext/isomorfeus_ferret_ext/brotli_dec_decode.c:748-870 | Reading a prefix code, from any phase, never takes in a symbol beyond its alphabet. |
| ContextMapReader.ResumeMapMore | ext/isomorfeus_ferret_ext/brotli_dec_decode.c:991-1110 | A context map may be cut at any bit, in any of its phases, even between the symbol of a run and its extra bits: stopping and going on reads the same map and leaves the same bits. |
| ContextMapReader.MapNamed | ext/isomorfeus_ferret_ext/brotli_dec_decode.c:991-1110 | Every entry of a map that is read names one of its trees, inverted or not. |
| MapWriter.CountRead | ext/isomorfeus_ferret_ext/brotli_dec_decode.c:180-217 | A number of trees written as one bit, or as the place of its highest bit and the bits below, is read back. |
| MapWriter.EntriesRead | ext/isomorfeus_ferret_ext/brotli_dec_decode.c:1052-1097 | Entries written as symbol 0, as a run with its extra bits, or as the symbol of another tree behind those of the runs are read back. |
| MapWriter.MapRead | ext/isomorfeus_ferret_ext/brotli_dec_decode.c:991-1110 | A context map that is written, with any lengths of runs and moved to the front or not, is read back as exactly that map, and nothing behind it is touched. |
| MapWriter.OneTreeRead | ext/isomorfeus_ferret_ext/brotli_dec_decode.c:999-1019 | A map of one tree is written as one bit. |
| ContextMapReader.MapReader.constructor | ext/isomorfeus_ferret_ext/brotli_dec_state.c:82-82 | A fresh state stands for no map read, whatever the size of the next one. |
| ContextMapReader.SafeGetBits | ext/isomorfeus_ferret_ext/brotli_dec_bit_reader.h:204-215 | Succeeds exactly when the stream has n bits, gives their number and takes none. |
| ContextMapReader.MapReader.DecodeVarLenUint8 | ext/isomorfeus_ferret_ext/brotli_dec_decode.c:180-217 | From any of its three states: the number is 0, 1, or 2^n and n bits; it waits with nothing lost. |
| ContextMapReader.MapReader.ReadRuns | ext/isomorfeus_ferret_ext/brotli_dec_decode.c:1023-1040 | A zero bit or five bits say how many lengths of runs have symbols; nothing is taken before all five are there. |
| ContextMapReader.MapReader.ReadTree | ext/isomorfeus_ferret_ext/brotli_dec_decode.c:1043-1050 | The code of trees and runs is read as the reference reads it, into a table of 646 entries, which is enough for every alphabet of at most 272 symbols. |
| ContextMapReader.MapReader.ReadRun | ext/isomorfeus_ferret_ext/brotli_dec_decode.c:1080-1095 | A run adds 2^n and n bits of zeros, is refused exactly when it passes the end of the map, and waits for its bits without taking any. |
| ContextMapReader.MapReader.ReadEntries | ext/isomorfeus_ferret_ext/brotli_dec_decode.c:1052-1097 | The entries are those of the symbols in the bits; it waits only when a symbol or the extra bits of a run are incomplete. |
| ContextMapReader.MapReader.ReadTransform | ext/isomorfeus_ferret_ext/brotli_dec_decode.c:1099-1110 | One bit says whether the entries are inverted, by the move-to-front transform of a fresh list. |
| ContextMapReader.MapReader.DecodeContextMap | ext/isomorfeus_ferret_ext/brotli_dec_decode.c:991-1110 | From any phase: map and number of trees, refusal, or waiting, exactly as section 7.3 of RFC 7932 says of the bits; no bit is lost by waiting. |
| StrProbe.IterForm | ext/isomorfeus_ferret_ext/bm_hash.c:72-74 | Where the iteration of 5i + 1 goes from any start follows from where it goes from zero. |
| StrProbe.IterPower | ext/isomorfeus_ferret_ext/bm_hash.c:72-74 | After 2^k steps it has moved by an odd multiple of 2^k. |
| StrProbe.Reaches | ext/isomorfeus_ferret_ext/bm_hash.c:72-74 | Modulo 2^k every number is reached within 2^k steps from anywhere: full period. |
| StrProbe.PerturbEnds | ext/isomorfeus_ferret_ext/bm_hash.c:72-74 | The perturbation is used up after seven steps. |
| StrProbe.VisitsAll | ext/isomorfeus_ferret_ext/bm_hash.c:72-74 | The probe, with its 32-bit wrap-around, visits every slot of a table of 2^k. |
| StrProbe.WideVisitsAll | ext/isomorfeus_ferret_ext/frt_hash.c:57-79 | The probe of resizing, with its 64-bit perturbation, visits every slot as well. |
| StrProbe.ProbesAgree | ext/isomorfeus_ferret_ext/frt_hash.c:57-79 | Resizing and lookup come to the same slot at every step if and only if no step's perturbation differs in the bits that count. |
| StrProbe.ProbesAgreeLarge | ext/isomorfeus_ferret_ext/frt_hash.c:57-79 | For tables of 32 slots and more that is so exactly for hashes of at most 32 bits. |
| StrProbe.ShortStart | ext/isomorfeus_ferret_ext/frt_hash.c:57-79 | For hashes of at most 32 bits the probes start alike in every table. |
| StrTable.ReachedPasses | ext/isomorfeus_ferret_ext/bm_hash.c:72-91 | A key is found in its slot if and only if every slot that its lookup comes past before is occupied. |
| StrResize.PlacedAt | ext/isomorfeus_ferret_ext/frt_hash.c:317-326 | Each key placed anew stays in its slot, which is on the probe of resizing. |
| StrResize.FoundIf | ext/isomorfeus_ferret_ext/frt_hash.c:286-329 | A key whose probes start alike is found after resizing, whatever the other keys. |
| StrResize.FoundExactly | ext/isomorfeus_ferret_ext/frt_hash.c:286-329 | A hash is found after every resizing with up to c other keys if and only if, up to the first c slots that resizing comes past, lookup comes past no others. |
| StrResize.LostKey | ext/isomorfeus_ferret_ext/frt_hash.c:286-329 | Eleven keys placed in 32 slots: the one with hash 2^32 is put where its lookup does not find it. |
| StrTable.Absent | ext/isomorfeus_ferret_ext/bm_hash.c:75-81 | A NULL slot after slots without the key means the key is nowhere in the table. |
| StrTable.FillSound | ext/isomorfeus_ferret_ext/frt_hash.c:349-373 | Filling the slot a lookup returned keeps every key where its probe finds it. |
| StrTable.StampSound | ext/isomorfeus_ferret_ext/bm_hash.c:75-81 | Writing the hash into a slot without a key keeps every key where its probe finds it. |
| StrHash.StringHash.Claim | ext/isomorfeus_ferret_ext/bm_hash.c:75-81 | At a NULL slot the key is in no slot, and the slot returned is on its probe. |
| StrHash.StringHash.Holds | ext/isomorfeus_ferret_ext/bm_hash.c:82-87 | A slot holds the key exactly when its stored string equals it. |
| StrHash.StringHash.Advance | ext/isomorfeus_ferret_ext/bm_hash.c:72-91 | A step answers, or goes on with everything it passed known not to hold the key. |
| StrHash.StringHash.Lookup | ext/isomorfeus_ferret_ext/bm_hash.c:49-92 | In any table with a NULL slot the lookup ends: with the key's slot if it has one, otherwise with the first slot of its probe that holds no key, marked with its hash, and nothing else changed. |
| StrHash.StringHash.constructor | ext/isomorfeus_ferret_ext/frt_hash.c:159-183 | A fresh table of 16 slots is empty. |
| StrHash.StringHash.ResizeLookup | ext/isomorfeus_ferret_ext/frt_hash.c:57-79 | In any table with an empty slot it ends at the first one of the 64-bit probe. |
| StrHash.StringHash.NewSize | ext/isomorfeus_ferret_ext/frt_hash.c:286-295 | The size is the smallest power of two from 16 on that is no smaller. |
| StrHash.StringHash.Resize | ext/isomorfeus_ferret_ext/frt_hash.c:286-329 | The new table is that of placing the active entries one by one, in the order of the old table. |
| StrHash.ResizedTable | ext/isomorfeus_ferret_ext/frt_hash.c:286-329 | It holds the same keys, each once and without dummies; all of them are found if their probes start alike. |
| StrHash.StringHash.Grow | ext/isomorfeus_ferret_ext/frt_hash.c:334-338 | The new table is the smallest power of two from 16 on with room for twice the keys, or for four times when they are more than 50000; the load is below two thirds, the keys are the same, and the key is looked up again to an empty slot on its probe. |
| StrHash.StringHash.Set | ext/isomorfeus_ferret_ext/frt_hash.c:331-373 | Storing a key adds that key and loses none from the table; the table grows only for a new key when it is more than two thirds full, and then it does unless a dummy is reused; every key is found afterwards if the table did not grow, or if the probes of the old keys start alike, as they do for hashes of at most 32 bits. |
| EncoderReplay.MatchCopies | ext/isomorfeus_ferret_ext/brotli_enc_backward_references_inc.h:93-103 | Copying a true match byte by byte continues the input, even where the match overlaps itself. |
| EncoderReplay.CommandReplays | ext/isomorfeus_ferret_ext/brotli_enc_backward_references.c:25-47 | Decoding one command of a true match gives the next piece of the input, and both sides have equal caches again. |
| EncoderReplay.CopyReplays | ext/isomorfeus_ferret_ext/brotli_enc_backward_references_inc.h:93-103 | For a copy the decoder's history and cache are those of the encoder. |
| EncoderReplay.WordReplays | ext/isomorfeus_ferret_ext/brotli_enc_backward_references_inc.h:93-103 | For a dictionary word the decoder's history is that of the encoder, and neither cache changes. |
| EncoderReplay.ReplaysMore | ext/isomorfeus_ferret_ext/brotli_enc_backward_references_inc.h:90-121 | One more command for a true match keeps the replay exact. |
| EncoderReplay.Rebuilds | ext/isomorfeus_ferret_ext/brotli_enc_backward_references_inc.h:160-161 | The commands and the trailing literals, decoded, rebuild the whole input and end the meta-block exactly. |
| GreedyParser.Delay | ext/isomorfeus_ferret_ext/brotli_enc_backward_references_inc.h:53-85 | Lazy matching waits for exactly as long as the next position has a match better by 175, at most four literals and inside the input; the match it ends with is the one found there. |
| GreedyParser.Jump | ext/isomorfeus_ferret_ext/brotli_enc_backward_references_inc.h:139-155 | A jump takes whole strides up to the first that reaches its end, never passes the end of input and stores only positions whose hash bytes lie in it. |
| GreedyParser.Skip | ext/isomorfeus_ferret_ext/brotli_enc_backward_references_inc.h:125-158 | Nothing is skipped unless there was no match for long; then up to 8 literals are by twos, and after longer still up to 16 by fours, inside the input. |
| GreedyParser.ChooseCode | ext/isomorfeus_ferret_ext/brotli_enc_backward_references_inc.h:90-104 | The code names the match's distance, and the cache after it is the decoder's. |
| GreedyParser.AddCommand | ext/isomorfeus_ferret_ext/brotli_enc_backward_references_inc.h:90-104 | The command of a match has its literals and its lengths, and keeps the replay exact. |
| GreedyParser.RoundMore | ext/isomorfeus_ferret_ext/brotli_enc_backward_references_inc.h:24-158 | One more round of searching keeps the record of rounds and of the commands they have made. |
| GreedyParser.CreateBackwardReferences | ext/isomorfeus_ferret_ext/brotli_enc_backward_references_inc.h:9-163 | For any match finder that reports only true matches, commands and left-over literals tile the input, the decoder replays the commands to exactly that input, and both caches agree at the end; the input is searched in rounds without a gap, and every match found above the least score starts a command, with the match that lazy matching ends with. |
| StartPosQueue.AllSorts | ext/isomorfeus_ferret_ext/brotli_enc_backward_references_hq.c:266-294 | An unbounded queue sorts what was pushed and loses nothing. |
| StartPosQueue.KeptSorted | ext/isomorfeus_ferret_ext/brotli_enc_backward_references_hq.c:266-294 | The bounded queue is always sorted. |
| StartPosQueue.SevenSmallest | ext/isomorfeus_ferret_ext/brotli_enc_backward_references_hq.c:266-294 | Its first seven entries are the seven smallest of all that were ever pushed. |
| StartPosQueue.EighthSmallest | ext/isomorfeus_ferret_ext/brotli_enc_backward_references_hq.c:266-294 | The eighth is the eighth smallest if and only if the newest push does not exceed the eighth smallest of the earlier ones. |
| StartPosQueue.EighthLost | ext/isomorfeus_ferret_ext/brotli_enc_backward_references_hq.c:266-294 | Nine pushes in increasing order break the comment's "smallest 8". |
| StartPosQueue.Queue.Push | ext/isomorfeus_ferret_ext/brotli_enc_backward_references_hq.c:280-294 | Bubbling through the ring of eight slots is an insertion into the sorted entries, less the last of eight. |
| StartPosQueue.PushAll | ext/isomorfeus_ferret_ext/brotli_enc_backward_references_hq.c:266-294 | After any sequence of pushes the queue holds what the specification keeps. |
| ZopfliPath.PathReplays | ext/isomorfeus_ferret_ext/brotli_enc_backward_references_hq.c:571-614 | The commands of a recorded path tile its stretch of input and replay to it. |
| ZopfliPath.PathFrame | ext/isomorfeus_ferret_ext/brotli_enc_backward_references_hq.c:379-399 | A path does not depend on anything recorded after its end: it is frozen once its end is evaluated. |
| ZopfliPath.RecentCache | ext/isomorfeus_ferret_ext/brotli_enc_backward_references_hq.c:353-377 | The cache after a path is the newest distances pushed on it, before those of the start. |
| ZopfliPath.RecentShortcut | ext/isomorfeus_ferret_ext/brotli_enc_backward_references_hq.c:327-351 | Shortcuts skip exactly the commands that push nothing. |
| ZopfliPath.ShortcutFrame | ext/isomorfeus_ferret_ext/brotli_enc_backward_references_hq.c:327-351 | A shortcut does not change once its position is evaluated. |
| ZopfliPath.HopUpdate | ext/isomorfeus_ferret_ext/brotli_enc_backward_references_hq.c:248-257 | A new command to a position still open keeps all paths linked, true and frozen. |
| ZopfliPath.PositionsLinks | ext/isomorfeus_ferret_ext/brotli_enc_backward_references_hq.c:554-568 | Every position of a path leads back to the one before it, down to zero. |
| ZopfliPath.CommandsCount | ext/isomorfeus_ferret_ext/brotli_enc_backward_references_hq.c:554-568 | A path has one command less than positions. |
| ZopfliNodes.PackRoundTrip | ext/isomorfeus_ferret_ext/brotli_enc_backward_references_hq.c:248-257 | Length, length code, distance, insert length and short code all come back from the packed 32-bit fields, and a packed node is never mistaken for an unreached one. |
| ZopfliNodes.NodeUpdate | ext/isomorfeus_ferret_ext/brotli_enc_backward_references_hq.c:248-257 | Storing a command keeps the node array invariant and the union's discipline. |
| ZopfliNodes.NodeEvaluate | ext/isomorfeus_ferret_ext/brotli_enc_backward_references_hq.c:379-399 | Turning the next position's cost into its shortcut keeps the node array invariant and the union's discipline. |
| ZopfliParser.TablesAgree | ext/isomorfeus_ferret_ext/brotli_enc_backward_references_hq.c:35-40 | The encoder's cache index and offset tables are the decoder's short codes. |
| ZopfliParser.MatchLengthRepeats | ext/isomorfeus_ferret_ext/brotli_enc_backward_references_hq.c:472-474 | A measured match length is a true repetition. |
| ZopfliParser.ShorterTruthful | ext/isomorfeus_ferret_ext/brotli_enc_backward_references_hq.c:528-547 | Every shorter copy of a true match is true as well. |
| ZopfliParser.Parser.constructor | ext/isomorfeus_ferret_ext/brotli_enc_backward_references_hq.c:42-50 | Fresh nodes satisfy the node array invariant. |
| ZopfliParser.Parser.ComputeDistanceShortcut | ext/isomorfeus_ferret_ext/brotli_enc_backward_references_hq.c:327-351 | The shortcut is the last position on the path whose command pushes its distance. |
| ZopfliParser.Parser.ComputeDistanceCache | ext/isomorfeus_ferret_ext/brotli_enc_backward_references_hq.c:353-377 | Following shortcuts gives the same four distances as replaying every command of the path. |
| ZopfliCost.CostUpdate | ext/isomorfeus_ferret_ext/brotli_enc_backward_references_hq.c:245-257 | After a command is stored, the cost recorded at each position is still the sum of the costs of the commands on its path. |
| ZopfliCost.CostFrame | ext/isomorfeus_ferret_ext/brotli_enc_backward_references_hq.c:379-399 | What a path costs does not depend on anything recorded after its end. |
| ZopfliCost.PushedMore | ext/isomorfeus_ferret_ext/brotli_enc_backward_references_hq.c:379-399 | The starts are all evaluated positions that are no dearer than literals, in order. |
| ZopfliParser.Parser.EvaluateNode | ext/isomorfeus_ferret_ext/brotli_enc_backward_references_hq.c:379-399 | Exactly one position's cost becomes its shortcut; it is queued, with its cost difference, exactly when it is no dearer than literals only. |
| ZopfliParser.Parser.LastPrice | ext/isomorfeus_ferret_ext/brotli_enc_backward_references_hq.c:475-495 | What a copy at a last distance costs at its end is what its start costs and what the command costs. |
| ZopfliParser.Parser.MatchPrice | ext/isomorfeus_ferret_ext/brotli_enc_backward_references_hq.c:509-547 | So it is for a match. |
| ZopfliParser.Parser.UpdateZopfliNode | ext/isomorfeus_ferret_ext/brotli_enc_backward_references_hq.c:245-257 | One node is overwritten and the invariant is kept. |
| ZopfliParser.Parser.TryCost | ext/isomorfeus_ferret_ext/brotli_enc_backward_references_hq.c:491-494 | A candidate is recorded if and only if it is cheaper than what its end had; no cost goes up. |
| ZopfliParser.Parser.ComputeMinimumCopyLength | ext/isomorfeus_ferret_ext/brotli_enc_backward_references_hq.c:300-325 | Every shorter copy's end already costs no more than the start's cost plus one for each length bucket begun, and the length returned does not. |
| ZopfliParser.Parser.TryLengths | ext/isomorfeus_ferret_ext/brotli_enc_backward_references_hq.c:480-497 | Every length beyond those tried ends up no dearer than this copy; the longest one improved is returned and nothing beyond it changes. |
| ZopfliParser.Parser.TryLast | ext/isomorfeus_ferret_ext/brotli_enc_backward_references_hq.c:448-497 | It stops exactly at the end of the ring; otherwise all longer copies at a comparable last distance are recorded or matched, and distances beyond the data touch nothing. |
| ZopfliParser.Parser.TryLastDistances | ext/isomorfeus_ferret_ext/brotli_enc_backward_references_hq.c:443-498 | For each of the sixteen last distances, every length that it adds to the longest copy known so far ends up no dearer than this copy; costs only go down, and only up to the length returned. |
| ZopfliParser.Parser.LastCovers | ext/isomorfeus_ferret_ext/brotli_enc_backward_references_hq.c:443-498 | Every length up to the longest copy was tried, at the first distance that repeats so far, and is a true copy there. |
| ZopfliParser.Parser.TryMatch | ext/isomorfeus_ferret_ext/brotli_enc_backward_references_hq.c:509-547 | Every length from the first one tried ends up no dearer than this match; words and very long copies only in full. |
| ZopfliParser.Parser.TryMatches | ext/isomorfeus_ferret_ext/brotli_enc_backward_references_hq.c:505-549 | For each match, every length from the first one not yet tried ends up no dearer than this match; costs only go down, and only up to the length returned. |
| ZopfliParser.Parser.TryStart | ext/isomorfeus_ferret_ext/brotli_enc_backward_references_hq.c:425-550 | From one queued start, nothing tried is cheaper than what is recorded; matches are tried from the first two starts only. |
| ZopfliParser.Parser.UpdateNodes | ext/isomorfeus_ferret_ext/brotli_enc_backward_references_hq.c:401-552 | The starts are the positions so far that are no dearer than literals, as the queue keeps them. In the end nothing tried from them is cheaper than what is recorded; shorter lengths than the least one tried were reached at the least cost and a bit for each bucket already, and that one was not; costs only go down, at and before the longest improvement, which is returned. |
| ZopfliParser.Parser.Iterate | ext/isomorfeus_ferret_ext/brotli_enc_backward_references_hq.c:616-654 | Position 0 is updated, and after each updated position the next one, unless an improvement of 16384 or more or a single long match skips to its end, up to the end of input; costs go on from one update to the next, and in the end nothing that was tried at any of them is cheaper than what is recorded where it ends. |
| ZopfliParser.Parser.LastReached | ext/isomorfeus_ferret_ext/brotli_enc_backward_references_hq.c:556-559 | The backtrace starts at the last position a command has reached. |
| ZopfliParser.Parser.ComputeShortestPath | ext/isomorfeus_ferret_ext/brotli_enc_backward_references_hq.c:554-568 | The backtrace arrives at exactly zero, links the path forward and counts its commands. |
| ZopfliParser.CreateCommands | ext/isomorfeus_ferret_ext/brotli_enc_backward_references_hq.c:571-614 | Following the links emits exactly the commands of the path, the earlier literals in the first, and leaves the path's cache. |
| ZopfliParser.FollowLink | ext/isomorfeus_ferret_ext/brotli_enc_backward_references_hq.c:581-611 | One link emits the next command of the path. |
| ZopfliParser.StartSettled | ext/isomorfeus_ferret_ext/brotli_enc_backward_references_hq.c:616-654 | When the parser is done, whatever was tried from any start at any updated position is still recorded or matched, and the start carries its own cost. |
| ZopfliParser.LastBounds | ext/isomorfeus_ferret_ext/brotli_enc_backward_references_hq.c:443-498 | For any updated position, start and last distance: what the start and the command cost bounds the cost of the command's end; if it is finite the path reaches as far, and if the path ends there it costs no more. |
| ZopfliParser.MatchBounds | ext/isomorfeus_ferret_ext/brotli_enc_backward_references_hq.c:505-549 | So it does for any length of any match from the first two starts. |
| ZopfliParser.CreateZopfliBackwardReferences | ext/isomorfeus_ferret_ext/brotli_enc_backward_references_hq.c:722-737 | Whatever the costs: as many commands as counted, which with the left-over literals tile the input and replay to exactly that input with equal caches. They are those of the path to the last position that any recorded command reaches, their costs sum to what is recorded there, and nothing tried anywhere is cheaper than what is recorded where it ends. |

## Left out

- CommandReader.CommandsProgress: requires that no word at an address below 120 is empty, one way only for a given meta-block header; over all headers of a dictionary the condition is exact (`CommandReader.EndsExactly`).
- MetaBlock.DecodeCommands: requires that condition; the one block of a category with a single type has no end here (its length is 2^24, which no meta-block exceeds), and symbols beyond an alphabet's tables are excluded by the type of the header.
- CommandWriter.PlansRead: what an insert-and-copy symbol stands for and the choice of literal and distance trees are functions in the header, for the writer as for the reader.
- MetaBlock.DecodeMetaBlock: a command goes to the ring buffer when it is complete and a call has used its piece of input, so the literals of an unfinished command are handed out later than by the code; the tables, context maps and block types are given as read.
- Streaming.StreamDecoder.DecompressAll: is about an abstract machine of reading, writing and finished states, of which the command reader is the instance proved; room for output is a number of writes, not of bytes, and the output pushed early while input is missing is that of `RingBuffer` alone.
- LzDecoder.Decoder.DecodeStream: commands are given as a list; `MetaBlock.DecodeMetaBlock` reads those of one meta-block from its bytes, but the headers between meta-blocks are not read from bits.
- Restart.SafeTransaction: covers steps restored as a whole; the block lengths before the first command, which are kept in part, are `BlockLength`.
- HuffmanReader.CodeReader.ReadHuffmanCode: the histogram array that the code shares between its two phases is two arrays here, and the array shared by simple symbols and chains is two as well.
- ContextMapReader.MapReader.DecodeContextMap: starts with a reader of prefix codes that is at the beginning of a code, as it is in the code; failing allocations are not modelled.
- ZopfliParser.Parser.UpdateNodes: claims no optimality beyond the candidates tried; costs are arbitrary reals, without the rounding of floats, of which only the finiteness of literal costs is used.
- ZopfliParser.CreateZopfliBackwardReferences: interleaved and stored match finding of the two quality levels is one function from positions to true matches; setting costs from a first pass is not modelled.
- GreedyParser.CreateBackwardReferences: requires the sparse-search spree to be at least four longer than the bytes a position's hash reads, as every hasher and quality that uses this parser has it (at most 8 bytes, at least 64 literals); which positions are hashed matters only as being inside the input.
- StrHash.StringHash.Set: requires that all keys of the table are found before, which growing keeps under the condition stated; values, deleting and reuse of the small table's memory are not modelled, tables have at most 2^28 keys, where the size in an int does not overflow, the dummy key is distinct from every key, and equal pointers are equal strings.
- BitReader.Reader.FillBitWindow: the 32-bit, aligned-read and bit-reversing builds are not modelled.
- HuffmanBuild.BuildHuffmanTable: the root has eight bits, the only width the decoder asks for; steps of replication are powers of two by exponent.
- The free-running index of the distance ring overflows an int after 2^31 commands; it is unbounded here.
- Masks by a power of two less one are written as remainders.
- Errors that differ only in their code (block length 1 and 2, dictionary and transform) are one error each; a missing dictionary is not modelled.
- Meta-block and window-size headers, metadata skipping, context modes, trivial-literal-context detection and the context lookup table: straight-line field reads or finite tables.
- `kCmdLut`, the transform table and the dictionary bytes: static data, parameters here; so are the block length ranges in the header of `CommandReader`.
- The static bit reversal table is the reversal it tabulates.
- `BrotliDecoderTakeOutput` mixed with direct output in one run.
- Hashers, command prefix encoding, the bit writer, entropy coding of the encoder, cost models and allocators.
- Preloaded literal symbols, which only reorder the same lookups.
- Clearing, deleting, iterating and integer or pointer keys of the hash table, and the Ruby glue around both parts.
