# Decoders and node state of the lighting gateway

A Dafny model of the parts of this repository whose correctness rests on more than a reading of one
function, with proofs of what they compute. `dafny verify dfyconfig.toml` checks all of it.

**The LZMA decoder of the boot loader** (`zload/LzmaDec.c`). `RangeCoder` is the arithmetic of the
range coder on 32-bit words, with probabilities in 31..2017 as the invariant of the update rule.
`LzmaSymbol` is one symbol as an automaton over bits and `LzmaRun` its runs, adapting (the decoder)
and not adapting (the look-ahead decoder). `LzmaModel` is the decoder on an unbounded output, without
dictionary, look-ahead buffer and 32-bit counters; `Run` is a whole run of it. Class
`LzmaDecoder.LzmaDec` has the fields of CLzmaDec and the functions of the file as methods that change
them; each is proved to leave the rest of the run unchanged, so that DecodeToDic computes `Run`.
`LzmaTheorems` proves that neither the cutting of the input nor that of the output matters to `Run`,
and `LzmaDirect` follows the two forms of the direct bit through symbols and runs. `LzmaEncoder` is an
encoder written from the format, with lengths, distances and states as plain numbers and a range
encoder of its own; `LzmaRoundTrip` proves that `Run` gives back what it encodes.

**The DEFLATE decoder** (`zload/inflate.c`, and `flush_window` of `zload/uncompress.c`).
`HuffmanCode` defines canonical codes; the `Huft...` modules are `huft_build` with its multi-level
tables in one memory, where pointers are indices, 0 is the null pointer and malloc is a bump
allocator. A place in the code, as a 16-bit reversed value, is the measure that connects counts,
the reversed code counter, the table stack and the entries filled so far. `InflateSpec` is RFC 1951
on a bit string; `InflateCodes`, `InflateHeader` and `InflateBlock` are the functions of the file
over `BitInput.BitReader` (the bit buffer) and `SlideWindow.Slide` (the window and the CRC, whose
bit-by-bit definition is in `Crc`), proved to decode what `InflateSpec` says. `DeflateEncoder` is an
encoder from RFC 1951 for all block types, with tables of its own; `DeflateRoundTrip` proves that
`InflateSpec` gives back what it encodes, and which bits are refused.

**Two stateful parts of `user/UserMain.c`**: the ageing table of other nodes with its derived valid
list and sorting (`ClientTable`), and the checksummed block transfer of firmware (`Firmware`).

Where code and comments differ, the code is followed: huft_build returns 0 for an all-zero set of
lengths, where its comment says 2. Where RFC 1951 leaves a case open, too: a repeat code with no
length before it repeats a length of 0.

## Model

| member | source | states |
|---|---|---|
| RangeCoder.Normalize | zload/LzmaDec.c:17 | One conditional 8-bit shift brings every range that a decoding step leaves back to at least 2^24 and below 2^32; a range that is there already is not touched |
| RangeCoder.AfterBit | zload/LzmaDec.c:19-21 | Either update keeps range at 2^16 or more, so that one shift is always enough, and loses at most a factor of 67; code below range stays below range |
| RangeCoder.DirectBitAgrees | zload/LzmaDec.c:330-351 | The branchless direct bit (sign of code - range on 32-bit words) and the compare-and-subtract form in the comment beside it give the same bit exactly when code is less than 2^31 above the halved range; so always while code is below range |
| RangeCoder.DirectKeepsCodeBelow | zload/LzmaDec.c:330-351 | A direct bit leaves code equal to range exactly when range was odd and code one below it, and below range otherwise |
| RangeCoder.NormalizeKeepsCodeBelow | zload/LzmaDec.c:17 | NORMALIZE keeps code below range |
| RangeCoder.FormsDifferAfterTop | zload/LzmaDec.c:330-351 | A normal state with code below range from which one direct bit and NORMALIZE lead to a direct bit that the two forms decide differently |
| LzmaDirect.CompareIsReal | zload/LzmaDec.c:330-351 | From a code below its range, a whole symbol decoded with the comparison form is the symbol decoded with the sign-bit form, and its code is below its range at the end, unless some direct bit of it is read with an odd range and code one below it |
| LzmaDirect.StartsBelow | zload/LzmaDec.c:685-691 | The range decoder starts with code below range exactly when the four code bytes are not all 0xFF |
| LzmaDirect.RunByCompare | zload/LzmaDec.c:727-846 | The same for a whole run from such a start: code stays below range, and every symbol is the same in both forms, unless some direct bit meets that one case |
| LzmaSymbol.LiteralsFollow | zload/LzmaDec.c:112-114 | The literal probabilities begin where LZMA_BASE_SIZE says, which the source checks when it is built |
| LzmaSymbol.Slot | zload/LzmaDec.c:94-110 | Every probability index of every step of a symbol is below numProbs |
| LzmaRun.SymbolNeedsAtMost20Bytes | zload/LzmaDec.h:45-48 | From a normalised range no symbol, its last NORMALIZE included, takes more than 20 bytes, whatever the probabilities and the input |
| LzmaRun.DummyPredictsReal | zload/LzmaDec.c:495-683 | Decoding with and without adapting the probabilities sees the same bits, symbol, range, code and number of bytes, and runs out of input in the same cases: no probability is read twice in one symbol |
| LzmaRun.MoreInputSameSymbol | zload/LzmaDec.c:784-803 | A symbol that was decoded is decoded in the same way when more input follows; the rest is passed on |
| LzmaRun.PrefixSuffices | zload/LzmaDec.c:812-840 | A symbol needs no more input than the bytes it takes |
| LzmaBits.GetBit | zload/LzmaDec.c:19-25 | Reading one bit from the probability array and the buffer takes the symbol automaton to its next node; the rest of the symbol is unchanged |
| LzmaBits.DecodeMatchedLiteral | zload/LzmaDec.c:183-196 | The branchless matched-literal loop decodes the literal of the automaton |
| LzmaBits.DecodeDistance | zload/LzmaDec.c:301-359 | Position slot, reverse-coded bits, direct bits and align bits give the distance of the automaton |
| Lz77.CopyMatchRepeats | zload/LzmaDec.c:384-416 | Every byte that a match produces equals the byte dist before it, also where source and destination overlap |
| Lz77.CopyMatchSplits | zload/LzmaDec.c:436-460 | A match cut in two is the match as a whole |
| LzmaWindow.CopyStraight | zload/LzmaDec.c:394-403 | The copy with a constant offset, for a source that does not run over the end of the buffer, is the match copy on the unbounded output, writes just these bytes, and keeps the dictionary a window on the output |
| LzmaWindow.CopyWrapping | zload/LzmaDec.c:404-413 | So is the copy whose source position wraps at the end of the buffer |
| LzmaWindow.CopyBytes | zload/LzmaDec.c:453-457 | So is the loop that computes the source of every byte anew, with which a cut match is continued |
| LzmaDecoder.DistanceCheck | zload/LzmaDec.c:373-381 | The test of a distance against processedPos (a 32-bit counter) or checkDicSize rejects exactly the distances that reach back before the output or beyond the dictionary |
| LzmaDecoder.DecodeOne | zload/LzmaDec.c:159-418 | One symbol changes state, distances, output and probabilities as the symbol machine on the unbounded output does |
| LzmaDecoder.DecodeLoop | zload/LzmaDec.c:159-434 | The unchecked symbol loop leaves what remains of a run unchanged; with a margin of 20 bytes, or for one symbol known to be whole, it never reads past the input; it goes beyond no limit |
| LzmaDecoder.LzmaDec.DecodeReal | zload/LzmaDec.c:137-434 | The same for the decoder structure: on success the new state continues the run that the old state was in, and the dictionary holds exactly the new output, no further than the limit; an error is the error of the run, all fields keep their values, and the dictionary holds exactly what was decoded before it |
| LzmaDecoder.LzmaDec.WriteRem | zload/LzmaDec.c:436-460 | A match cut by an earlier limit is continued by exactly what the run continues it by, and checkDicSize follows the output |
| LzmaDecoder.LzmaDec.DecodeReal2 | zload/LzmaDec.c:462-485 | Stopping where the dictionary fills up and finishing cut matches changes nothing about the run; dicPos never passes the limit, and on an error the dictionary holds exactly the output up to it |
| LzmaDecoder.LzmaDec.TryDummy | zload/LzmaDec.c:495-683 | The kind of the next symbol, or an error exactly when the input ends inside it; nothing is modified |
| LzmaDecoder.LzmaDec.InitStateReal | zload/LzmaDec.c:715-725 | Resets probabilities, distances and state as the start of a run does |
| LzmaDecoder.LzmaDec.Init | zload/LzmaDec.c:709-713 | Whatever the last stream left behind, the state is an initial one |
| LzmaDecoder.GiveBack | zload/LzmaDec.c:836-840 | Moving back over bytes that were copied to tempBuf and not used leaves exactly the unread input |
| LzmaDecoder.TakesAllKept | zload/LzmaDec.c:812-840 | Completing a symbol takes every byte kept back for it, so the number of bytes moved back over is never negative |
| LzmaDecoder.LzmaDec.DecodeToDic | zload/LzmaDec.c:727-846 | Terminates on every input, bad ones included, with dicPos at most dicLimit and no more input taken than given; returns result, status, state, written bytes and unread input of one run on the bytes kept back followed by the new input; on bad data the dictionary holds exactly the output up to the error and is otherwise unchanged |
| LzmaDecoder.LzmaDec.Rewind | zload/LzmaDec.c:848-885 | A full dictionary buffer may be started again at its beginning, as the commented-out LzmaDec_DecodeToBuf does, without a change to the run |
| LzmaModel.Drain | zload/LzmaDec.c:436-460 | What is left of a match goes out as far as the limit allows; every reachable state stays well-formed (state below 12, distances within the bytes available) |
| LzmaModel.Run | zload/LzmaDec.c:727-846 | A run keeps every state well-formed, only appends to the output, and never exceeds the output limit |
| LzmaTheorems.ErrorOutput | zload/LzmaDec.c:727-846 | What a run has decoded when it meets bad data goes on from the output it began with and respects the output limit |
| LzmaTheorems.OutputLimitIndependence | zload/LzmaDec.c:436-460 | A run stopped at any earlier output limit and continued is the run that was not stopped; an error before that limit is the error of the run |
| LzmaTheorems.InputSplitIndependence | zload/LzmaDec.c:727-846 | A run on s1, continued with s2 if it asked for more, is the run on s1 + s2: state, output, status, unread input and errors |
| LzmaTheorems.ChunksDoNotMatter | zload/LzmaDec.c:727-846 | The same for any number of chunks |
| LzmaRoundTrip.WalkDecodes | zload/LzmaDec.c:17-25 | What a range encoder has written for a list of bits, each with its adaptive probability or without one, is read back bit by bit: the symbol is the one the bits lead to, the probabilities are the encoder's, and what was encoded behind it is left |
| LzmaRoundTrip.LiteralLeads | zload/LzmaDec.c:166-196 | A literal has the eight bits of its byte, highest first; after a match, along the probabilities for the byte that the match would have gone on with as long as the bits agree |
| LzmaRoundTrip.LenLeads | zload/LzmaDec.c:269-299 | The lengths are 2 to 273: 2 to 9, 10 to 17 and 18 to 273 in trees of their own |
| LzmaRoundTrip.DistLeads | zload/LzmaDec.c:301-359 | Every distance from 1 to 2^32 has its slot of the two highest bits, and the other bits behind it, coded in reverse, directly, or both |
| LzmaRoundTrip.ApplyToken | zload/LzmaDec.c:198-434 | A literal, match, repeated match or one-byte repeat appends exactly the bytes that its length and distance as plain numbers say, moves the distance it names to the front of the last four, and steps the state |
| LzmaRoundTrip.StreamDecodes | zload/LzmaDec.c:727-846 | For every text, cut into literals, matches and repeats in any way the format allows, and for every tail: the stream of the encoder written from the format is decoded to this text, and the tail is left. The status tells an end marker, the end of the text without one, and text that stops short of a marker; a distance that reaches too far is bad data with the text before it decoded |
| LzmaRoundTrip.CutOffNeedsMore | zload/LzmaDec.c:784-840 | A stream cut off at any byte is not taken for finished or bad: more input is asked for, and the output so far begins the text |
| LzmaOneCall.InitialStatesAlike | zload/LzmaDec.c:693-725 | What uninitialised memory holds at the start of a stream does not show in what is decoded |
| LzmaOneCall.LzmaDecode | zload/LzmaDec.c:978-1008 | The one-call interface returns output, lengths, status and result of one run from a fresh state; destLen and srcLen never exceed the buffers, and on bad data dest begins with exactly what was decoded before, at least destLen bytes, and is unchanged behind it. From the stream of any text (LzmaRoundTrip.StreamDecodes) that dest has room for it restores the text, with the status of its ending, and srcLen leaves the tail |
| HuffmanCode.IndexOrders | zload/inflate.c:365-370 | The place of a symbol in v orders symbols by code length, and by number for equal lengths |
| HuffmanCode.CodeIsInterval | zload/inflate.c:374-394 | A bit string begins with the canonical code of a symbol (section 3.2.2 of RFC 1951) exactly when its reversed value lies in the interval that the sums of code weights give the symbol |
| HuffmanCode.IntervalsInOrder | zload/inflate.c:374-394 | The intervals follow each other by code length and, for equal lengths, by symbol number |
| HuffmanCode.PrefixFree | zload/inflate.c:374-394 | No code is the beginning of another |
| HuffmanCode.CodeFits | zload/inflate.c:346-352 | In a set that is not oversubscribed every code has the number of bits that its length says |
| BitReverse.PrefixInterval | zload/inflate.c:463-478 | The bit strings with a given prefix are, in the order of their reversed values, one interval |
| CodeCounter.NextReversed | zload/inflate.c:468-471 | The backwards increment moves the reversed counter on by exactly one code of its length, and to zero after the last |
| HuftCounts.DeepSubtreeNeedsManyCodes | zload/inflate.c:400-415 | In a complete set a subtree whose first code lies l or more bits below it holds at least 2^l codes, so that there are more than 2^l codes in all |
| HuftCounts.TableBits | zload/inflate.c:400-415 | The size of a new table: wide enough for the next code; either all codes below it end within it or it has at least l bits; and it goes no deeper than the longest code |
| HuftCounts.WiderExactlyWhen | zload/inflate.c:400-415 | A table gets more than l bits exactly when the code it is made for is more than l bits below it, or just l bits and the codes of that length do not use the table up |
| HuftSort.LengthBounds | zload/inflate.c:328-342 | Shortest and longest code length, and the table width bounded by them |
| HuftSort.DummyCodes | zload/inflate.c:346-352 | Fails exactly when the codes take up more than all bit strings; otherwise yields the number of longest codes missing |
| HuftSort.SortSymbols | zload/inflate.c:356-370 | v holds every symbol that has a code at its place in the order of the codes |
| HuftTable.ResolvesIsLookup | zload/inflate.c:538-546 | A walk that stays on known entries and ends at an entry is what the table walk finds |
| HuftStack.CodeResolves | zload/inflate.c:446-466 | Once a code is entered in the last table of the stack, every bit string that begins with it walks from the root to its entry, and uses up exactly the bits of the code |
| HuftStack.AfterFill | zload/inflate.c:463-466 | Entering a code moves the filled part on by exactly its interval in every table of the stack, and overwrites nothing |
| HuftInvariant.PopBacking | zload/inflate.c:473-478 | A table that does not hold the next code is finished exactly: the codes never pass over the end of a table |
| HuftEntered.TablesAreNarrow | zload/inflate.c:394-415 | When the counts widen the table of no code that opens an interval of strings, no table below the root gets more than l bits |
| HuftEntered.ShortOrFewIsNarrow | zload/inflate.c:394-415 | That is so when no code is longer than 2 l, or there are at most 2^l codes |
| HuftRoom.UsedAtMostRoom | zload/inflate.c:417-427 | The tables of one depth stand for disjoint intervals of the strings, so that all tables with their dummy entries take no more than one and a half times 2^g entries for each of the depths, l bits apart, at which codes of up to g bits can have tables |
| HuftLoop.LinkPlace | zload/inflate.c:432-441 | When a table is linked in, the reversed code has no bits beyond those already decoded: its index lies in the addressed part of the parent table |
| HuftLoop.AddTable | zload/inflate.c:394-443 | A new table keeps counter, stack and table list consistent, and all codes entered so far decoded |
| HuftLoop.EnterCode | zload/inflate.c:446-478 | One code: afterwards all codes up to it decode, whatever the tables looked like before it |
| HuftLoop.HuftFree | zload/inflate.c:492-510 | Each table of the list is released once, in the order of its allocation |
| HuftBuild.ShortOrFewDecodes | zload/inflate.c:394-415 | No table below the first is wider than it in a set with no code longer than twice its width m, and in a complete set of at most 2^m codes |
| HuftBuild.WideTableExample | zload/inflate.c:394-415 | The complete code 0, 100, 101, 110, 111 has a table of 2 bits below a first table of 1 bit |
| HuftBuild.Build | zload/inflate.c:274-488 | 2 exactly when the code weights exceed 1; 1 only for an incomplete set with a code longer than one bit, 0 for a complete set, no code at all, or codes of one bit; 3 only when memory has fewer entries than HuftRoom.Room for the table width and the longest code, a bound that the tables never exceed, and then the tables made are released. The list holds every table once: the dummy entries and the tables, of a power of two entries each, follow each other without gap from the first free place to the last used one. Memory outside is unchanged, every entry that a lookup can start with is written, and when no table below the first is wider than it, every bit string that begins with the code of a symbol is looked up to the entry and the code length of that symbol, and (when every symbol has a code) all others to the unused mark |
| Crc.StepLinear | zload/inflate.c:1040-1047 | A step of the CRC register is linear over the two-element field |
| Crc.TableStep | zload/uncompress.c:186-189 | One table look-up and one shift take a whole byte into the register, as eight steps of the bit-by-bit division do |
| Crc.MakeCrc | zload/inflate.c:1019-1053 | Table entry i is the register after byte i alone |
| Crc.FeedConcat | zload/uncompress.c:178-195 | The CRC of a string does not depend on where the string is cut into windows |
| Crc.StartComplements | zload/inflate.c:1052 | Starting with all ones is starting with zero on a message whose first four bytes are inverted |
| Crc.LeadingZeroShows | zload/inflate.c:1052 | A zero byte in front of any string changes its register, which it would not from a zero start |
| Crc.FeedInjective | zload/uncompress.c:178-195 | Different registers stay different over the same bytes |
| Crc.CheckValue | zload/inflate.c:1019-1053 | The register after the nine digits 1 to 9 is 0x340bc6d9, so that the CRC is the check value 0xcbf43926 |
| SlideWindow.Slide.FlushWindow | zload/uncompress.c:178-195 | Exactly the bytes of the window go out; the CRC and the count are those of everything written so far |
| SlideWindow.Slide.PutByte | zload/inflate.c:548-557 | A literal, with the flush of a full window |
| SlideWindow.Slide.Copy | zload/inflate.c:585-606 | A match copied through the circular window in pieces, by memcpy or byte by byte, with flushes between, appends to the history exactly out[i] = out[i - dist] |
| SlideWindow.StaysBack | zload/inflate.c:585-606 | Across pieces and wraps the source stays as far back as the distance says |
| BitInput.BitReader.NeedBits | zload/inflate.c:224-225 | The unused input is unchanged, at least n bits are in the buffer, never more than 23, and no byte is read that is not needed; fails exactly when fewer than n bits are left |
| BitInput.BitReader.DumpBits | zload/inflate.c:226 | Exactly the first n unused bits are dropped |
| BitInput.BitReader.UndoLookahead | zload/inflate.c:985-991 | The input index is the number of bits used divided by 8, rounded up |
| BitInput.BufferFirst | zload/inflate.c:215-226 | The buffer shows the next bits of the input, and dropping bits of it drops them from the input |
| InflateSpec.NextToken | zload/inflate.c:534-582 | What the specification reads has length 3 to 258 and distance 1 to 32768, and takes at least one bit |
| InflateSpec.DistancesTile | zload/inflate.c:174-182 | The ranges of the distance codes follow each other without gap or overlap from 1 to 32768 |
| InflateSpec.LengthsTile | zload/inflate.c:167-173 | The ranges of the length codes follow each other from 3 to 258; only 258 has two codes |
| InflateSpec.HistoryIsFree | zload/inflate.c:579-606 | For a stream in which no distance reaches back before the output, what the window held at first makes no difference |
| InflateCodes.SymbolLookup | zload/inflate.c:538-547 | For any bits, tables built from code lengths find the symbol whose code the bits begin with, and an unused entry when there is none |
| InflateCodes.DecodeSymbol | zload/inflate.c:537-547 | The table walk with NEEDBITS and DUMPBITS finds what the lookup on the whole rest of the input finds, dumps just the bits of the code, and asks for no more than 15 bits beyond it |
| InflateCodes.ReadToken | zload/inflate.c:534-582 | A literal, end of block or match is what the specification reads from the same bits |
| InflateCodes.DecodeCodes | zload/inflate.c:513-617 | A block of compressed data appends to the output what RFC 1951 says and uses up exactly its bits; bad data is an error |
| InflateHeader.ReadBitLengths | zload/inflate.c:781-789 | The bit length code lengths, in their order of transmission |
| InflateHeader.ReadLengths | zload/inflate.c:804-850 | Literal and distance code lengths are the run-length expansion of section 3.2.7 of RFC 1951 (whose inverse is in DeflateRoundTrip.ReadRuns), repeats across the boundary included; a repeat that would overrun is an error; the loop ends |
| InflateHeader.BuildTables | zload/inflate.c:274-488 | For the sets that a block may have, huft_build returns 0 exactly for those the specification accepts, and its tables decode; they take at most 147456 entries, and memory is short only when it has fewer |
| InflateHeader.ReadCodes | zload/inflate.c:732-880 | A dynamic header gives tables for exactly the codes that the specification reads |
| InflateBlock.ReadStoredHead | zload/inflate.c:638-650 | A stored block starts at the next byte boundary with a length and its complement (DeflateRoundTrip.HeadExactly) |
| InflateBlock.Stored | zload/inflate.c:622-673 | A stored block appends its bytes and ends on a byte boundary |
| FixedCodes.FixedKraft | zload/inflate.c:688-712 | The fixed literal/length code is complete; of the fixed distance code 2 of 32 codes are left over |
| FixedCodes.FixedLitCode | zload/inflate.c:690-704 | The codes that section 3.2.2 of RFC 1951 makes of the fixed lengths are the table of section 3.2.6: 8 bits from 0x30 for 0 to 143, 9 bits from 0x190 for 144 to 255, 7 bits from 0 for 256 to 279, 8 bits from 0xC0 for the rest |
| FixedCodes.FixedDistCode | zload/inflate.c:707-712 | Fixed distance codes are the numbers 0 to 29 in five bits |
| InflateBlock.Fixed | zload/inflate.c:678-727 | A fixed block is decoded as the specification says; its tables can always be built if there is memory |
| InflateBlock.Dynamic | zload/inflate.c:732-905 | A dynamic block is decoded as the specification says |
| InflateBlock.Block | zload/inflate.c:910-952 | The last-block flag and the block of the type that the header names |
| InflateBlock.Inflate | zload/inflate.c:957-1003 | The output is that of RFC 1951, the CRC is that of the output, and the input is left at the first byte that holds no bit of the stream; a valid stream with 16 bits behind it never runs out of input, and no block needs memory for more than 442368 table entries. From the stream of any text (DeflateRoundTrip.StreamRestored) with 16 bits behind it, and memory enough, it restores the text and leaves what comes after the stream |
| DeflateRoundTrip.ReadCode | zload/inflate.c:538-547 | Bits that begin with the canonical code of a symbol, highest bit first, are read as that symbol, and the bits behind it are left |
| DeflateRoundTrip.LengthIs | zload/inflate.c:167-173 | The length code of each length from 3 to 258 as a plain formula of its highest bits, and the extra bits as the others |
| DeflateRoundTrip.DistIs | zload/inflate.c:174-182 | The same for each distance from 1 to 32768 |
| DeflateRoundTrip.ReadData | zload/inflate.c:513-617 | Literals and matches in fixed or given codes, up to the end of the block, are read back as the text they spell |
| DeflateRoundTrip.ReadRuns | zload/inflate.c:804-850 | Any list of code lengths, cut in any way into single lengths, repeats of the last one 3 to 6 times and 3 to 138 zeros, is read back |
| DeflateRoundTrip.ReadAllBl | zload/inflate.c:781-789 | The bit length code lengths, sent in the order of section 3.2.7 of RFC 1951, come back, and those not sent are 0 |
| DeflateRoundTrip.UsableIsAccepted | zload/inflate.c:346-352 | The sets of code lengths that the decoder goes on with are exactly the complete ones, one code of one bit, and none |
| DeflateRoundTrip.ReadHeader | zload/inflate.c:732-880 | The header of a dynamic block is read back as the code lengths of both codes |
| DeflateRoundTrip.StoredText | zload/inflate.c:622-673 | For every text of at most 65535 bytes the bytes 1, two octets of its length, their complements, and the text are a stream of this text, and what comes after it is left |
| DeflateRoundTrip.HeadExactly | zload/inflate.c:643-650 | A stored block is accepted exactly when its two words add up to 0xFFFF, and the first one is its length |
| DeflateRoundTrip.ReadStream | zload/inflate.c:910-1003 | Blocks of all three types, one after the other, are read back as their text, stored ones from byte boundaries on |
| DeflateRoundTrip.StreamRestored | zload/inflate.c:957-1003 | For every text, cut into blocks, items and runs in any way RFC 1951 allows: the bytes an encoder written from RFC 1951 packs it into are decoded to this text, and no bit behind the stream is used |
| DeflateRoundTrip.NoFourthType | zload/inflate.c:936-951 | A block of type 3 is an error |
| DeflateRoundTrip.NoSuchLength | zload/inflate.c:538-546 | So are the length codes 286 and 287, which the fixed set has |
| DeflateRoundTrip.NoSuchDistance | zload/inflate.c:707-712 | So are the two strings of five bits that are no fixed distance code |
| ClientTable.AgedWf | user/UserMain.c:2811-2824 | Ageing keeps ages at most 3 and live addresses distinct |
| ClientTable.HeardWf | user/UserMain.c:2838-2897 | So does a message, whether its sender is known, new, or finds the table full |
| ClientTable.HeardIsEntered | user/UserMain.c:2838-2897 | A message is entered at exactly one place, or nowhere when there is none for it |
| ClientTable.RunWf | user/UserMain.c:2765-2897 | So does every run of messages and ageings |
| ClientTable.RunIgnoresOwn | user/UserMain.c:2838-2897 | What this node's own entry holds makes no difference to the entries of others, over any run |
| ClientTable.SilentClientVanishes | user/UserMain.c:2813-2823 | A node that is not heard any more keeps its slot and fields until the third ageing, whatever other messages arrive, and is in no slot from then on |
| ClientTable.Clients.SaveValidClientEntry | user/UserMain.c:2765-2769 | Appends one entry to the valid list |
| ClientTable.Clients.AgeClientList | user/UserMain.c:2772-2825 | Ages the table (unless a new entry is the reason for the call) and leaves the valid list as this node followed by exactly the live slots in order |
| ClientTable.Clients.PopulateNewClient | user/UserMain.c:2838-2897 | After a message from another node that has a slot or finds a free one, exactly one live entry has its address, that entry holds the fields of the message at full age, and the others are as before; a message from this node, or from a new one when the table is full, changes no entry; the valid list again shows exactly the live slots |
| ClientTable.CompareChains | user/UserMain.c:2919-2935 | strcmp orders sort keys transitively |
| ClientTable.CompareIsOrder | user/UserMain.c:2919-2935 | strcmp is negative exactly when the first key is a proper beginning of the second or has the smaller character where they first differ; zero exactly for equal keys |
| ClientTable.Clients.SortClientList | user/UserMain.c:2899-2953 | sort_array names every valid entry once; for a known key no entry comes before one whose field for this key is smaller in that order, for an unknown key the order is that of the valid list |
| Firmware.WordStep | user/UserMain.c:2537-2544 | Combining words and folding the result is combining the bytes |
| Firmware.PaddedXor | user/UserMain.c:2430-2440 | Padding does not change the checksum of an image |
| Firmware.PaddedIs | user/UserMain.c:2430-2440 | The padded image is the image and zeros up to the next multiple of 512 |
| Firmware.PacketChecks | user/UserMain.c:2524-2545 | The bytes of a packet, checksum included, combine to zero |
| Firmware.CommandTells | user/UserMain.c:2412 | The greeting names the protocol, and its last byte what is to be updated |
| Firmware.DoneMessageTells | user/UserMain.c:2570-2576 | From the closing message the other side gets the length of the image and a byte that cancels the combination of all its bytes |
| Firmware.ContainsIsSlice | user/UserMain.c:2550-2570 | A reply counts as an acknowledgement exactly when some slice of it is the word |
| Firmware.Samd.PadImage | user/UserMain.c:2430-2440 | The buffer holds the image zero-padded to a multiple of 512 |
| Firmware.Samd.MakePacket | user/UserMain.c:2524-2545 | A packet is the block of the image with the combination of its bytes behind it |
| Firmware.Samd.SendPacket | user/UserMain.c:2550-2570 | 0 exactly when the packet was acknowledged at the first or second attempt; -101 when it got no response, -104 when both attempts were answered and refused |
| Firmware.Samd.SendBlocks | user/UserMain.c:2508-2571 | 0 exactly when all blocks, which make up the padded image, were acknowledged in order, and then the running checksum is that of the whole image; otherwise all blocks up to one arrived and that one did not |
| Firmware.Samd.Download | user/UserMain.c:2399-2579 | 0 exactly for a complete exchange: greeting, consent, all blocks acknowledged, and a closing message with the length and the checksum of the whole image; any other result says at which step the exchange was given up |

## Left out

- LzmaProps_Decode, allocation, LzmaDec_DecodeToBuf (commented out in the source), gunzip header and trailer parsing, load_image: readings of single fields and foreign calls.
- LzmaDecoder.LzmaDec.DecodeToDic: after SZ_ERROR_DATA the dictionary and the bounds of dicPos are described, the other fields are not, because DecodeReal does not store its locals back; Init restores them.
- LzmaDirect.RunByCompare: that the excepted direct bit can occur in a stream from its first byte on is not shown, only in a walk from a normal state (RangeCoder.FormsDifferAfterTop).
- LzmaDecoder.LzmaDec.constructor: fresh probability arrays hold arbitrary values in 31..2017 rather than arbitrary 16-bit values; InitStateReal sets all of them before the first is read.
- The unrolled form of TREE_6_DECODE is modelled by the loop form of the same macro.
- The locals of LzmaDec_DecodeReal are one record passed between the methods for the branches of its loop; inflate's local copies of bb, bk and wp are the fields themselves, so that after an error these fields are not the ones from before the block.
- HuftBuild.Build: decoding is promised when no table below the first gets more than m bits, which the counts decide (Decodable, HuftCounts.WiderExactlyWhen); for a set with such a table, like that of HuftBuild.WideTableExample, what a look-up finds is not described. Every set that inflate accepts is of the promised kind (InflateHeader.WidthDecodes).
- HuftBuild.Build: in an incomplete set with unused symbols, the codes that fill out the set get entries from places of v[] that were never set; the model leaves these entries open, and InflateSpec calls bits that reach them Undefined.
- u[] and x[] of huft_build are one sequence of stack levels, with the size and the width of each table for the specification; the hufts memory statistics are not modelled.
- HuftTable.Lookup and InflateCodes.DecodeSymbol: an entry that huft_build cannot have made (an address outside the memory, a table pointer that does not lead on, a bit count of zero or beyond its table) is read as an unused code; so is the look-up in a null table, which the original reads from address 0.
- InflateBlock.Inflate: get_byte has no end of input in the original; the model returns a result of its own (4) where the original would read on. malloc has no limit in the original; the model has one, and 442368 table entries are a bound on the need of a block, not the least one.
- inflate's calls of huft_free and the error texts are not modelled; the tables of a block are released by going back to the heap mark, as gzip_mark and gzip_release do.
- `b |= x << k` on the bit buffer is modelled as the addition of numbers that have no bit in common.
- memcpy is the forward byte loop of zload/uncompress.c.
- ClientTable: the fields of a message are given as strings; the fixed sizes of the character arrays and sprintf with a received string as format are not modelled. Sockets, timing and threads are left out.
- Firmware.Samd.Send: replies are arbitrary, and a missing reply is a result; UART, delays, mutexes and the enabling of Art-Net are left out.
- user/e131.c, user/ArtPollReply.c, parameter handlers, AT command tables, the TIMO channel mask, HexCharToInt and lib/rt_ap_channel.c: field copying and finite tables.
