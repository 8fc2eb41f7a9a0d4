# A verified model of the Neof5 client's algorithms

Neof5 is a card-game client that talks to its server over WebSockets. This project models, in Dafny, the
algorithms it is built from and proves what each of them is for. Every component pairs a fast, stateful
form, written with the arrays, loops and objects of the C and C++ code, with a short definition that does
not mention them, and proves the two equal for all inputs, runs or reachable states.

| component | source | main results |
|---|---|---|
| Huffman tables | inftrees.c | `BuildTable.Build`: the two-level table decodes exactly the canonical code of section 3.2.2 of RFC 1951, or the length set is refused exactly when Kraft's sum says so |
| inflate | inflate.c, inffast.c | `Inflate.Inflate`, `InflateFast.RunFast`: each call, slow states and fast loop alike, is a run of a bit-level machine; `InflateSession.Session`: any cutting into calls gives a prefix of the one-shot output, and all of it with the full window; `InflateDistance.StreamFreeWhen`: for any window, exactly the streams whose matches stay within it; `InflateStream.StreamRead`: every stream of stored, fixed and dynamic blocks, by the arithmetic of section 3.2 of RFC 1951, comes out as what its blocks stand for |
| deflate | deflate.c, deflate.h, trees.c | `DeflateSlow.DeflateSlow`, `DeflateFast.DeflateFast`, `DeflateSession.Session`: the tokens expand to the input, for any chunking and any flushes, and each is what the searches made at its place call for; `BitOutput.Pending.FlushBlock`: what the bit output writes is a block of the format; `RoundTrip.WriteAndRead`, `RoundTrip.ThereAndBack`: whichever kind each block is, inflate gives back the input |
| checksums | crc32.c, adler32.c, sha-1.c | `CrcTable.Crc32Little`, `CrcCombine.CombineMessages`, `CrcCheck.Residue`, `Adler.Adler32`, `Adler.CombineMessages`, `Sha1.Digest`, `Sha1Check.AbcDigest` |
| WebSocket framing | output.c, parsers.c, client-parser.c | `WebSocketSession.Exchange`: what one side writes the other delivers; `WebSocketReceive.ClientRunOk`: the receiver's invariant over all byte streams; `WebSocketMasked.ReceivesWhen`: exactly which frames a receiver gets right; `WebSocketControl.PeerAnswered`: what it answers to pings and closes |
| header lexer | minilex.c | `MinilexTable.Recognize`: the byte table recognises exactly the keywords it was compiled from |
| JSON | picojson.h | `JsonValue.ParseText`: parsing succeeds exactly on the texts of the grammar and returns what they stand for; `JsonValue.RoundTrip`: it undoes serializing |
| move search | SagePlayer.cpp, DaifugoRule.cpp, Cards.cpp | `SagePlayer.EnumerateHands`: the pruned, memoised search against the plain set of legal moves |

Numbers are unbounded, with the widths of the C code written out where they matter: 32-bit window positions,
the CRC register, Adler's sums, the bit accumulator, the loop counter of the masking loop. A number of bits is
taken apart with `Lo`, `Hi`, `Shl` and `Xor` (Bits.dfy, Xors.dfy); `|` of disjoint bits is addition.

## Findings

Where a promise does not hold for all inputs, the project gives an input and proves exactly when it does hold.

- Resuming inflate with a small window. Inflate.c:1108-1123 measures distances against the window plus the
  output of the current call, so a distance larger than the window is accepted inside one call and refused
  after a call boundary. `InflateSmallWindow.SmallWindowFails` gives the stream and the cut for every window
  of 2^8 to 2^14 bytes. `InflateDistance.StreamFreeWhen`: a stream comes out the same however it is cut if and
  only if no match of its one-shot run reaches back further than the window;
  `InflateSmallWindow.FullWindowNeeded`: all streams do if and only if the window has 2^15 bytes. That the
  output is a prefix holds for every window.
- The bits held when inflate_fast is entered. Inffast.c:46 assumes fewer than 8. `InflateEntry.EightHeld` is a
  call that leaves 8, and a next call with enough input and space enters with them; `InflateEntry.FewHeldWhen`:
  fewer than 8 are held in every state that the accumulator's invariant allows if and only if no literal/length
  code word is longer than 8 bits. It does no harm: at most 14 are held, the first code uses them all, and only bytes of this call are handed back
  (`InflateFast.EntryBits`, `InflateFast.PutBack`).
- Masked frames at the client. Client-parser.c:79 keeps the mask bit in a length below 126, and no line of that
  file resets the index into the key. `WebSocketMasked.ShortFails` is a frame of one letter after which the
  client waits for 128 more bytes; `WebSocketMasked.SecondFails` are two longer frames with one key, of which
  the second comes out wrong. `WebSocketMasked.ReceivesWhen`: a ready client gets a nonempty data frame right if
  and only if it is not masked, or its payload has 126 bytes or more and the key looks the same from where the
  index stands. The server gets every such frame right.
- Empty masked frames at the server. Parsers.c:855-859 enters the payload state before it sees that there is no
  payload. `WebSocketControl.ReadyWhen`: after a control or empty frame a receiver is ready for the next one if and
  only if it is the client or there was a payload; `WebSocketControl.EmptyFails`: after an empty one the server
  takes the next byte for payload, with 2^64 - 1 bytes to come.
- The move search on large tables. SagePlayer.cpp:52 stops at every hand of three or more cards that cannot be
  put, but a hand can only be put if it has as many cards as the table (DaifugoRule.cpp:71). With four or more
  cards on the table the search therefore returns nothing. `SagePlayer.MissedHand`: four threes on the table,
  four fours in hand. `SagePlayer.EnumerateHands`: the search is complete if and only if the table holds at
  most three cards, or it is not of one number, or the deck has fewer cards of every stronger rank, the joker
  counted, than the table.
- Masking very long payloads. Output.c:533 counts in an `int` up to `(int)len + 4`.
  `WebSocketWrite.WireIsFrame`: what is sent is the frame of section 5.2 of RFC 6455 if and only if it is
  unmasked, or the key is zero, or the payload is shorter than 2^31 - 4 bytes; `WebSocketWrite.LongFails` is the
  shortest that fails. Two assumptions: `size_t` has
  64 bits and `int` 32, and the addition, which is undefined in C when it overflows, wraps around.
- The position after a JSON number. Picojson.h:559-574 reads one character past a number and pushes it back,
  but the cursor that is returned ignores the push-back. `JsonValue.ParseText`: the cursor stands right behind
  what was read, except that it is one too far if and only if that is a number with text after it. `JsonValue.PastNumber`: the
  digit 1 and a space.

Two places look wrong and are not. A pending match's start may wrap around to 2^32 - 1 when the window slides
under deflate_slow (deflate.c:1335); its distance, computed modulo 2^32, stays right
(`DeflateState.PendingSlide`). And inflate_table's last loop (inftrees.c:291-324) is written for any incomplete
code, but only one with longest length 1 reaches it, so it writes one entry or none (`BuildTable.FillRest`,
`BuildTable.IncompleteDecodes`).

## Model

| member | source | states |
|---|---|---|
| `Canonical.KraftIsUsed` | Neof5Client/jni/libwebsockets-1.23/win32port/zlib/inftrees.c:130-137 | The running count of used codes, taken length by length, is Kraft's sum scaled to each length |
| `InflateTable.CheckLengths` | Neof5Client/jni/libwebsockets-1.23/win32port/zlib/inftrees.c:130-138 | The countdown rejects a length set exactly when it is over-subscribed, or incomplete where that is not allowed (code lengths, or a longest length other than 1) |
| `InflateTable.OverSubscribed` | Neof5Client/jni/libwebsockets-1.23/win32port/zlib/inftrees.c:133-136 | Once a length is over-subscribed every longer one is: returning at the first negative count loses nothing |
| `BuildTable.EndIsKraft` | Neof5Client/jni/libwebsockets-1.23/win32port/zlib/inftrees.c:130-138 | The end of the last code word, as a position among all 15-bit streams, is Kraft's sum: the acceptance condition in the terms of the code |
| `InflateTable.SortSymbols` | Neof5Client/jni/libwebsockets-1.23/win32port/zlib/inftrees.c:140-147 | The counting sort places the symbols in code order: by length, and by number within a length, none lost and none twice |
| `Canonical.MatchUnique` | Neof5Client/jni/libwebsockets-1.23/win32port/zlib/inftrees.c:75-86 | No bit stream starts with the code words of two symbols, unless the lengths are over-subscribed |
| `Canonical.CompleteMatches` | Neof5Client/jni/libwebsockets-1.23/win32port/zlib/inftrees.c:82-86 | With a complete set of lengths every bit stream starts with the code word of exactly one symbol |
| `InflateTable.BackIncrementRev` | Neof5Client/jni/libwebsockets-1.23/win32port/zlib/inftrees.c:241-250 | Incrementing the reversed code word from the top is adding one to the code word itself, wrapping at its length |
| `InflateTable.IncrementBackwards` | Neof5Client/jni/libwebsockets-1.23/win32port/zlib/inftrees.c:241-250 | The loop on incr computes that increment, for every length and code word |
| `InflateTable.NextHuff` | Neof5Client/jni/libwebsockets-1.23/win32port/zlib/inftrees.c:241-257 | The incremented word is the canonical code word of the next symbol in code order, also when the length grows |
| `InflateTable.Replicate` | Neof5Client/jni/libwebsockets-1.23/win32port/zlib/inftrees.c:232-239 | An entry is written at exactly the indices of the current table whose low bits are the code word; every other entry keeps its value |
| `InflateTable.SubTableBits` | Neof5Client/jni/libwebsockets-1.23/win32port/zlib/inftrees.c:264-273 | The look-ahead over the remaining counts finds the least length by which the codes fill the root slot: the sub-table is as large as needed and no larger |
| `BuildTable.EnterCode` | Neof5Client/jni/libwebsockets-1.23/win32port/zlib/inftrees.c:217-250 | One round adds the current symbol to the streams that decode rightly, keeps the others, touches nothing outside the current table, and leaves the successor of the code word |
| `BuildTable.OpenSubTable` | Neof5Client/jni/libwebsockets-1.23/win32port/zlib/inftrees.c:258-289 | A code in a new root slot gets a linked sub-table that holds every code of the slot, with all that was entered kept; refused only if the space counted so far is too much |
| `BuildTable.EnterCodes` | Neof5Client/jni/libwebsockets-1.23/win32port/zlib/inftrees.c:216-289 | The main loop enters all symbols in code order or reports that space runs out |
| `BuildTable.FillRest` | Neof5Client/jni/libwebsockets-1.23/win32port/zlib/inftrees.c:291-324 | The remaining entries are marked invalid: none for a complete code, the one other entry for a single code of one bit |
| `BuildTable.CompleteDecodes` | Neof5Client/jni/libwebsockets-1.23/win32port/zlib/inftrees.c:199-289 | When every symbol of a complete code is entered, looking up any stream gives the symbol and length of the canonical code |
| `BuildTable.IncompleteDecodes` | Neof5Client/jni/libwebsockets-1.23/win32port/zlib/inftrees.c:291-324 | For a single one-bit code the table gives the symbol on one branch and the invalid marker on the other |
| `BuildTable.EmptyDecodes` | Neof5Client/jni/libwebsockets-1.23/win32port/zlib/inftrees.c:116-125 | Without any code both entries of the one-bit table are invalid markers |
| `BuildTable.Build` | Neof5Client/jni/libwebsockets-1.23/win32port/zlib/inftrees.c:32-330 | inflate_table(): the return code as a function of its arguments (-1 exactly for bad lengths), and on 0 every stream's look-up through root and sub-table is that of the canonical code, or invalid where no code matches; nothing outside the table's space changes |
| `InflateRun.TableDecodes` | Neof5Client/jni/libwebsockets-1.23/win32port/zlib/inflate.c:1015-1034 | With a table from inflate_table the two-step look-up equals decoding by the canonical code; a code no longer than the root needs one step |
| `InflateRun.DecodeStable` | Neof5Client/jni/libwebsockets-1.23/win32port/zlib/inflate.c:1015-1019 | Decoding depends on the bits of the decoded code only: once these are held, further input cannot change the symbol |
| `InflateRun.FixedAccepted` | Neof5Client/jni/libwebsockets-1.23/win32port/zlib/inflate.c:240-277 | The fixed lengths are acceptable codes |
| `InflateRun.StepIsGood` | Neof5Client/jni/libwebsockets-1.23/win32port/zlib/inflate.c:589-1236 | Each step of the decoding machine keeps its invariant, only appends to the output, and either consumes bits or goes to a later state, so runs end |
| `InflateSchedule.NextFeed` | Neof5Client/jni/libwebsockets-1.23/win32port/zlib/inflate.c:512-580 | A step that can be taken is the same step when more input has arrived: stopping for input never changes the outcome |
| `InflateSchedule.NextFullWindow` | Neof5Client/jni/libwebsockets-1.23/win32port/zlib/inflate.c:1108-1123 | With a window of the largest distance, where the current call started does not matter |
| `InflateSchedule.AnySchedule` | Neof5Client/jni/libwebsockets-1.23/win32port/zlib/inflate.c:512-580 | With the full window, any sequence of calls, continued in one go, ends as a single call does |
| `InflateSchedule.ScheduleComplete` | Neof5Client/jni/libwebsockets-1.23/win32port/zlib/inflate.c:512-580 | With the full window, a sequence of calls whose last one left output space unused ends in exactly the one-shot configuration |
| `InflateSchedule.OutputIsPrefix` | Neof5Client/jni/libwebsockets-1.23/win32port/zlib/inflate.c:512-580 | For any window and any sequence of calls the concatenated output is a prefix of the one-shot output |
| `InflateWindow.SlidingWindow.Update` | Neof5Client/jni/libwebsockets-1.23/win32port/zlib/inflate.c:358-406 | updatewindow() keeps the circular buffer equal to the last min(total, size) bytes of all output, through refilling, wrapping and appending |
| `InflateWindow.SlidingWindow.constructor` | Neof5Client/jni/libwebsockets-1.23/win32port/zlib/inflate.c:366-384 | A fresh window stands for an empty history |
| `InflateState.State.BuildFixed` | Neof5Client/jni/libwebsockets-1.23/win32port/zlib/inflate.c:249-277 | The fixed tables that are built decode the fixed codes of section 3.2.6 of RFC 1951 |
| `InflateSteps.PullByte` | Neof5Client/jni/libwebsockets-1.23/win32port/zlib/inflate.c:468-474 | Taking a byte into the accumulator leaves the stream of bits held and unread unchanged |
| `InflateSteps.NeedBits` | Neof5Client/jni/libwebsockets-1.23/win32port/zlib/inflate.c:478-482 | Stops with the bits asked for and fewer than 8 more, or with all input taken; the stream is unchanged |
| `InflateSteps.DropConf` | Neof5Client/jni/libwebsockets-1.23/win32port/zlib/inflate.c:485-493 | Dropping held bits is taking them from the stream, and the low held bits are the stream's |
| `InflateSteps.HeldDecodes` | Neof5Client/jni/libwebsockets-1.23/win32port/zlib/inflate.c:1015-1019 | If the code found with the held bits is no longer than them it is the stream's; otherwise the stream's code needs more bits than are held |
| `InflateSteps.TypeDo` | Neof5Client/jni/libwebsockets-1.23/win32port/zlib/inflate.c:812-847 | TYPEDO is one step of the machine, or leaves because input is missing, with nothing lost |
| `InflateSteps.StoredLengths` | Neof5Client/jni/libwebsockets-1.23/win32port/zlib/inflate.c:848-861 | STORED likewise: the length must equal the complement of its complement |
| `InflateSteps.TableSizes` | Neof5Client/jni/libwebsockets-1.23/win32port/zlib/inflate.c:881-898 | TABLE likewise: more than 286 lengths or 30 distances are refused |
| `InflateSteps.LookupCode` | Neof5Client/jni/libwebsockets-1.23/win32port/zlib/inflate.c:1015-1034 | The loops that take bytes until a code is complete, in one or two levels, find the stream's canonical code |
| `InflateSteps.LenCode` | Neof5Client/jni/libwebsockets-1.23/win32port/zlib/inflate.c:1014-1054 | LEN: literal, end of block, invalid code or length base, as the canonical code says |
| `InflateSteps.LenExtra` | Neof5Client/jni/libwebsockets-1.23/win32port/zlib/inflate.c:1055-1064 | LENEXT: extra bits complete the length |
| `InflateSteps.DistCode` | Neof5Client/jni/libwebsockets-1.23/win32port/zlib/inflate.c:1065-1091 | DIST: distance base or invalid code |
| `InflateSteps.DistExtra` | Neof5Client/jni/libwebsockets-1.23/win32port/zlib/inflate.c:1092-1107 | DISTEXT: extra bits complete the distance |
| `InflateSteps.OneLenLen` | Neof5Client/jni/libwebsockets-1.23/win32port/zlib/inflate.c:900-904 | One code length code length is read as one more item of the header |
| `InflateSteps.OneCodeLength` | Neof5Client/jni/libwebsockets-1.23/win32port/zlib/inflate.c:922-967 | One code length, or a run of repeated ones, is read as the header says; a run without predecessor or past the end is refused |
| `InflateLengths.StoreInOrder` | Neof5Client/jni/libwebsockets-1.23/win32port/zlib/inflate.c:900-904 | Storing through the permutation table is appending to the list read so far |
| `InflateLengths.BuildLengthCode` | Neof5Client/jni/libwebsockets-1.23/win32port/zlib/inflate.c:906-919 | The code for code lengths is built from the permuted lengths, or the block is refused |
| `InflateLengths.LenLensCase` | Neof5Client/jni/libwebsockets-1.23/win32port/zlib/inflate.c:899-919 | LENLENS on the real arrays follows the machine and keeps the invariant that ties the arrays to it |
| `InflateLengths.BuildTables` | Neof5Client/jni/libwebsockets-1.23/win32port/zlib/inflate.c:972-1003 | Both dynamic tables are built, next to each other in one array, or the block is refused, exactly as the lengths demand |
| `InflateLengths.CodeLensCase` | Neof5Client/jni/libwebsockets-1.23/win32port/zlib/inflate.c:920-1005 | CODELENS on the real arrays follows the machine, up to the tables for the block |
| `InflateCases.HeaderCase` | Neof5Client/jni/libwebsockets-1.23/win32port/zlib/inflate.c:812-898 | The header states keep the object's invariant and follow the machine |
| `InflateCases.CodedCase` | Neof5Client/jni/libwebsockets-1.23/win32port/zlib/inflate.c:1006-1107 | The states between LEN and MATCH keep the object's invariant and follow the machine |
| `InflateCopy.MatchRun` | Neof5Client/jni/libwebsockets-1.23/win32port/zlib/inflate.c:1108-1152 | Copying several bytes at once is the machine's byte-by-byte copy |
| `InflateCopy.WindowRun` | Neof5Client/jni/libwebsockets-1.23/win32port/zlib/inflate.c:1124-1134 | The place computed in the circular window is where the byte at that distance lies, and the run up to the wrap point is contiguous history |
| `InflateCopy.CopyFromOutput` | Neof5Client/jni/libwebsockets-1.23/win32port/zlib/inflate.c:1135-1147 | A copy from earlier output, overlapping itself or not, continues the history by bytes that lie the distance back |
| `InflateCopy.CopyMatch` | Neof5Client/jni/libwebsockets-1.23/win32port/zlib/inflate.c:1110-1147 | One round of MATCH copies from window or output the bytes that lie the distance back in the whole history, across the wrap point |
| `InflateOutput.CopyCase` | Neof5Client/jni/libwebsockets-1.23/win32port/zlib/inflate.c:864-880 | COPY runs the machine as far as input and space allow |
| `InflateOutput.LitCase` | Neof5Client/jni/libwebsockets-1.23/win32port/zlib/inflate.c:1153-1158 | LIT runs the machine by one literal, or leaves for want of space |
| `InflateOutput.MatchCase` | Neof5Client/jni/libwebsockets-1.23/win32port/zlib/inflate.c:1108-1152 | MATCH runs the machine as far as space allows, and refuses a distance too far back |
| `InflateFast.TwoBytes` | Neof5Client/jni/libwebsockets-1.23/win32port/zlib/inffast.c:121-126 | Two bytes are added when fewer than 15 bits are held: then any code is complete and the accumulator stays below 31 bits |
| `InflateFast.FastCode` | Neof5Client/jni/libwebsockets-1.23/win32port/zlib/inffast.c:127-131 | The unchecked look-up finds the stream's canonical code and drops its bits |
| `InflateFast.FastLength` | Neof5Client/jni/libwebsockets-1.23/win32port/zlib/inffast.c:121-141 | dolen is LEN: same symbol, same bits used, at most two bytes read |
| `InflateFast.FastDistance` | Neof5Client/jni/libwebsockets-1.23/win32port/zlib/inffast.c:152-166 | dodist is DIST: same symbol, same bits used, at most two bytes read |
| `InflateFast.FastCopy` | Neof5Client/jni/libwebsockets-1.23/win32port/zlib/inffast.c:186-281 | The unrolled copies from window and output, in all their cases, write the bytes that lie the distance back in the whole history |
| `InflateFast.FastWrite` | Neof5Client/jni/libwebsockets-1.23/win32port/zlib/inffast.c:133-282 | A round writes at most 258 bytes, and the same ones as MATCH or LIT |
| `InflateFast.FastRound` | Neof5Client/jni/libwebsockets-1.23/win32port/zlib/inffast.c:120-307 | One round is a run of the slow states; it reads at most 6 bytes, writes at most 258, uses at most 48 bits and holds at most 30 |
| `InflateFast.EntryBits` | Neof5Client/jni/libwebsockets-1.23/win32port/zlib/inffast.c:40-46 | On entry at most 14 bits are held, and when it is 8 or more the first code uses them all |
| `InflateFast.PutBack` | Neof5Client/jni/libwebsockets-1.23/win32port/zlib/inffast.c:309-313 | Handing back whole unused bytes leaves the stream unchanged and never goes before the input of the call |
| `InflateFast.RunFast` | Neof5Client/jni/libwebsockets-1.23/win32port/zlib/inffast.c:67-323 | inflate_fast() reaches a configuration the slow states reach from the same start: same output, same stream of remaining bits, same mode; fewer than 8 bits are held at the end |
| `Inflate.Step` | Neof5Client/jni/libwebsockets-1.23/win32port/zlib/inflate.c:606-1214 | Any round of the main switch is a run of the machine, or leaves because neither input nor space allows another step |
| `Inflate.Inflate` | Neof5Client/jni/libwebsockets-1.23/win32port/zlib/inflate.c:589-1236 | One call, slow or fast, takes the object to exactly the configuration that the machine reaches on the same input and space, and hands back the unread input; the return code follows from it; with space left all input is consumed, and at the end of the stream no bit is held, so the unread input is exactly what follows the stream |
| `InflateSession.Session` | Neof5Client/jni/libwebsockets-1.23/win32port/zlib/inflate.c:512-580 | Whole runs of the object: for any pieces of input and space the output is that of the schedule, a prefix of the one-shot output, and equal to it with the 32K window when the last call left space; at the end of the stream the unread input is what follows it |
| `DeflateFormat.LengthRanges` | Neof5Client/jni/libwebsockets-1.23/win32port/zlib/inftrees.c:60-65 | The tables of lengths: (s - 261) / 4 extra bits from symbol 265 to 284 and none elsewhere; each range starts where the one before ends; 285 is 258 |
| `DeflateFormat.LengthDenoted` | Neof5Client/jni/libwebsockets-1.23/win32port/zlib/inftrees.c:60-65 | For every length from 3 to 258 the symbol and extra bits computed as section 3.2.5 of RFC 1951 lays them out denote it |
| `DeflateFormat.LengthOnly` | Neof5Client/jni/libwebsockets-1.23/win32port/zlib/inftrees.c:60-65 | No other symbol and extra bits denote it, except that 258 is also symbol 284 with all extra bits set |
| `DeflateFormat.OtherSymbols` | Neof5Client/jni/libwebsockets-1.23/win32port/zlib/inftrees.c:216-230 | Symbols below 256 are bytes, 256 is the end of the block, 286 and 287 are invalid |
| `DeflateFormat.DistRanges` | Neof5Client/jni/libwebsockets-1.23/win32port/zlib/inftrees.c:66-73 | The tables of distances: s/2 - 1 extra bits from symbol 4 on; each range starts where the one before ends, up to 32768; 30 and 31 are invalid |
| `DeflateFormat.DistDenoted` | Neof5Client/jni/libwebsockets-1.23/win32port/zlib/inftrees.c:66-73 | For every distance from 1 to 32768 the symbol and extra bits so computed denote it |
| `DeflateFormat.DistOnly` | Neof5Client/jni/libwebsockets-1.23/win32port/zlib/inftrees.c:66-73 | No other symbol and extra bits denote it |
| `InflateFormat.ReachesMatch` | Neof5Client/jni/libwebsockets-1.23/win32port/zlib/inflate.c:1014-1107 | From LEN, the bits of a length and a distance lead in four steps to a match of exactly that length and distance |
| `InflateFormat.TokensRead` | Neof5Client/jni/libwebsockets-1.23/win32port/zlib/inflate.c:1014-1160 | The bits of any tokens and the end of the block lead to the next block, with the expansion of the tokens written |
| `InflateBlocks.OrderIs` | Neof5Client/jni/libwebsockets-1.23/win32port/zlib/inflate.c:609-610 | The order of the code length code: 16, 17, 18, 0, and then outwards from 8 |
| `InflateBlocks.OrderRead` | Neof5Client/jni/libwebsockets-1.23/win32port/zlib/inflate.c:900-904 | Lengths written in that order are read back into it |
| `InflateBlocks.RunRead` | Neof5Client/jni/libwebsockets-1.23/win32port/zlib/inflate.c:922-967 | A code length, or a run of 3 to 6 of the one before, of 3 to 10 or of 11 to 138 zeros, is read from its symbol and its 2, 3 or 7 extra bits |
| `InflateBlocks.HeaderRead` | Neof5Client/jni/libwebsockets-1.23/win32port/zlib/inflate.c:881-1005 | The header of a dynamic block is read back: the counts, the code length code, and all runs of code lengths |
| `InflateBlocks.PlainRead` | Neof5Client/jni/libwebsockets-1.23/win32port/zlib/inflate.c:848-880 | A stored block, after any filler up to the byte boundary, gives its bytes |
| `InflateStream.FixedWords` | Neof5Client/jni/libwebsockets-1.23/win32port/zlib/inflate.c:240-277 | The words of the fixed codes are those of section 3.2.6 of RFC 1951 |
| `InflateStream.TypeRead` | Neof5Client/jni/libwebsockets-1.23/win32port/zlib/inflate.c:812-847 | The first three bits say whether the block is the last one and its kind: 0 stored, 1 fixed, 2 dynamic, 3 refused |
| `InflateStream.ChunkRead` | Neof5Client/jni/libwebsockets-1.23/win32port/zlib/inflate.c:812-1160 | One block of any kind leads to the next block with its output written |
| `InflateStream.StreamRead` | Neof5Client/jni/libwebsockets-1.23/win32port/zlib/inflate.c:589-1236 | Any stream of blocks of the format, in one call: inflate stops right behind it, with the output that the blocks stand for |
| `InflateSmallWindow.SmallWindowFails` | Neof5Client/jni/libwebsockets-1.23/win32port/zlib/inflate.c:1108-1123 | For every window of 2^8 to 2^14 bytes a stream and a cut into two calls that end in an error and lose output the single call produces |
| `InflateSmallWindow.FullWindowNeeded` | Neof5Client/jni/libwebsockets-1.23/win32port/zlib/inflate.c:1108-1123 | Among the windows of 2^8 to 2^15 bytes the result is independent of the cutting if and only if the window has 2^15 bytes |
| `InflateDistance.NextNear` | Neof5Client/jni/libwebsockets-1.23/win32port/zlib/inflate.c:1110-1121 | A match that reaches back no further than the window is copied alike, wherever the current call started |
| `InflateDistance.PlayNear` | Neof5Client/jni/libwebsockets-1.23/win32port/zlib/inflate.c:512-580 | If no match of the one-shot run reaches back further than the window, any sequence of calls, continued in one go, ends as a single call does |
| `InflateDistance.NearComplete` | Neof5Client/jni/libwebsockets-1.23/win32port/zlib/inflate.c:512-580 | For such a stream a sequence of calls whose last one left space ends in exactly the one-shot configuration |
| `InflateDistance.FarFails` | Neof5Client/jni/libwebsockets-1.23/win32port/zlib/inflate.c:1110-1121 | For any other stream a cut into two calls that loses output |
| `InflateDistance.StreamFreeWhen` | Neof5Client/jni/libwebsockets-1.23/win32port/zlib/inflate.c:1108-1123 | For every stream and window size: the output is independent of the cutting if and only if no match of the one-shot run reaches back further than the window |
| `InflateDistance.FullIsNear` | Neof5Client/jni/libwebsockets-1.23/win32port/zlib/inflate.c:1108-1123 | No match reaches back further than 32K |
| `InflateEntry.FewHeldWhen` | Neof5Client/jni/libwebsockets-1.23/win32port/zlib/inffast.c:40-46 | Fewer than 8 bits are held in LEN, in every state the accumulator's invariant allows, if and only if no literal/length code word is longer than 8 bits |
| `InflateEntry.EightHeld` | Neof5Client/jni/libwebsockets-1.23/win32port/zlib/inflate.c:1006-1012 | A run whose first call ends in LEN with 8 bits held: a block with the fixed codes, cut inside a nine-bit code word |
| `DeflateTokens.CopyRepeats` | Neof5Client/jni/libwebsockets-1.23/win32port/zlib/deflate.h:326-334 | Where the input repeats itself, expanding the (distance, length) token reproduces it, overlap included |
| `DeflateHash.Forgets` | Neof5Client/jni/libwebsockets-1.23/win32port/zlib/deflate.c:157-164 | After three updates the hash depends on those three bytes only, whatever it was |
| `DeflateHash.KeyPrimes` | Neof5Client/jni/libwebsockets-1.23/win32port/zlib/deflate.c:157-186 | The hash of one string, updated once, is the hash of the next: rolling needs no restart |
| `DeflateHash.ThirdByte` | Neof5Client/jni/libwebsockets-1.23/win32port/zlib/deflate.c:1162-1169 | Equal hashes and equal first two bytes force equal third bytes: skipping byte 2 in the comparison is safe |
| `DeflateMatch.FilterRejects` | Neof5Client/jni/libwebsockets-1.23/win32port/zlib/deflate.c:1157-1160 | A candidate rejected by the four-byte filter has no match longer than the best so far |
| `DeflateMatch.CompareOn` | Neof5Client/jni/libwebsockets-1.23/win32port/zlib/deflate.c:1168-1184 | The comparison, which never looks at byte 2, finds the exact match length up to 258 |
| `DeflateMatch.SearchIsGenuine` | Neof5Client/jni/libwebsockets-1.23/win32port/zlib/deflate.c:1055-1062 | A result other than the initial one is a position on the chain above the limit whose match has exactly the length returned |
| `DeflateMatch.SearchFindsLongest` | Neof5Client/jni/libwebsockets-1.23/win32port/zlib/deflate.c:1055-1062 | No candidate within the chain length has a longer match, unless a nice match stopped the search |
| `DeflateMatch.LongestMatch` | Neof5Client/jni/libwebsockets-1.23/win32port/zlib/deflate.c:1063-1204 | longest_match() returns the result of that search, its length cut to the lookahead |
| `DeflateState.ChainsInsert` | Neof5Client/jni/libwebsockets-1.23/win32port/zlib/deflate.c:167-186 | Inserting a string keeps all heads and live links leading to strictly earlier positions of the same three-byte hash |
| `DeflateState.ChainsSlide` | Neof5Client/jni/libwebsockets-1.23/win32port/zlib/deflate.c:1332-1363 | Sliding window and tables keeps that invariant: links to what left the window become empty, the others move with it |
| `DeflateState.ChainsQuery` | Neof5Client/jni/libwebsockets-1.23/win32port/zlib/deflate.c:1063-1204 | From the previous head every link followed above the limit stays on the chain of the current hash, strictly backwards |
| `DeflateState.EmitLiteral` | Neof5Client/jni/libwebsockets-1.23/win32port/zlib/deflate.h:319-325 | Tallying the next byte extends the expansion of blocks and buffer by that byte |
| `DeflateState.EmitCopy` | Neof5Client/jni/libwebsockets-1.23/win32port/zlib/deflate.h:326-334 | Tallying a genuine match extends the expansion by the bytes matched |
| `DeflateState.EmitBlock` | Neof5Client/jni/libwebsockets-1.23/win32port/zlib/deflate.c:1432-1445 | Handing a block over moves its tokens from the buffer to the blocks, whose expansions cut the input at block_start |
| `DeflateState.PendingSlide` | Neof5Client/jni/libwebsockets-1.23/win32port/zlib/deflate.c:1332-1337 | A pending match keeps its true distance when the window slides, although its start may wrap around 2^32 |
| `DeflateWindow.Matcher.constructor` | Neof5Client/jni/libwebsockets-1.23/win32port/zlib/deflate.c:1022-1047 | The initial matcher satisfies the invariants on an empty input |
| `DeflateWindow.Matcher.SlideWindow` | Neof5Client/jni/libwebsockets-1.23/win32port/zlib/deflate.c:1332-1363 | Sliding keeps window, chains, hash and pending match in agreement with the same input |
| `DeflateWindow.Matcher.FillWindow` | Neof5Client/jni/libwebsockets-1.23/win32port/zlib/deflate.c:1305-1430 | fill_window() reads input without disturbing anything, and ends with enough lookahead or no input left, and room for a longest match |
| `DeflateWindow.Matcher.InsertString` | Neof5Client/jni/libwebsockets-1.23/win32port/zlib/deflate.c:167-186 | INSERT_STRING returns the previous head, an earlier string of the same hash or none, and links the string in |
| `DeflateWindow.Matcher.FlushBlock` | Neof5Client/jni/libwebsockets-1.23/win32port/zlib/deflate.c:1432-1445 | The block handed over is the buffered tokens and the bytes from block_start to strstart, if these are still in the window |
| `DeflateWindow.Matcher.ForgetHistory` | Neof5Client/jni/libwebsockets-1.23/win32port/zlib/deflate.c:848-854 | After a full flush every chain is empty and the window may start again at 0; the invariants hold and the input read is the same |
| `DeflateSlow.FoundGenuine` | Neof5Client/jni/libwebsockets-1.23/win32port/zlib/deflate.c:1063-1204 | A length found that exceeds the previous one is a true repetition of the input at a legal distance, within the lookahead |
| `DeflateSlow.Find` | Neof5Client/jni/libwebsockets-1.23/win32port/zlib/deflate.c:1632-1675 | Insertion, shift of the previous match and lazy search: the outcome is the one the lazy rule prescribes, and the invariants hold |
| `DeflateSlow.TakePrevious` | Neof5Client/jni/libwebsockets-1.23/win32port/zlib/deflate.c:1679-1706 | When the previous match is at least as long as the one found, the round adds that copy and nothing else |
| `DeflateSlow.Wait` | Neof5Client/jni/libwebsockets-1.23/win32port/zlib/deflate.c:1708-1727 | Otherwise it adds the pending byte as a literal, if there is one, and the match found is pending |
| `DeflateSlow.EmitMatch` | Neof5Client/jni/libwebsockets-1.23/win32port/zlib/deflate.c:1678-1706 | The previous match is tallied with its true distance and length, the strings under it are inserted, and the emitted tokens expand to the input up to the new position |
| `DeflateSlow.EmitPending` | Neof5Client/jni/libwebsockets-1.23/win32port/zlib/deflate.c:1708-1722 | The pending byte is tallied as a literal, and a full block is handed over |
| `DeflateSlow.Step` | Neof5Client/jni/libwebsockets-1.23/win32port/zlib/deflate.c:1623-1728 | One round makes the search at its position by the rule; it adds exactly the previous match if that has three bytes or more and the search found nothing longer, else at most the pending literal, and what the search found is pending next; the tokens so far are explained by the searches, and the loop invariant holds |
| `DeflateSlow.FinishBlock` | Neof5Client/jni/libwebsockets-1.23/win32port/zlib/deflate.c:1729-1733 | At the end the pending byte is tallied and all input is in blocks |
| `DeflateSlow.DeflateSlow` | Neof5Client/jni/libwebsockets-1.23/win32port/zlib/deflate.c:1616-1733 | deflate_slow(): the invariant holds whenever it returns; at a block's end all input is in blocks whose tokens expand to it; it returns early only if the output is full, or without flush when all input is read; every token is what the searches at its place and the next call for |
| `DeflateFast.FindFast` | Neof5Client/jni/libwebsockets-1.23/win32port/zlib/deflate.c:1527-1556 | The search is made whenever the chain has a start within reach; a match taken is a genuine one within the lookahead |
| `DeflateFast.EmitFound` | Neof5Client/jni/libwebsockets-1.23/win32port/zlib/deflate.c:1557-1592 | The match is tallied and skipped, its strings inserted or the hash restarted; the emitted tokens expand to the input up to the new position |
| `DeflateFast.SkipOver` | Neof5Client/jni/libwebsockets-1.23/win32port/zlib/deflate.c:1580-1590 | Skipping a long match without insertions leaves chains and restarted hash valid |
| `DeflateFast.FastStep` | Neof5Client/jni/libwebsockets-1.23/win32port/zlib/deflate.c:1527-1604 | One round searches, adds the match found if it has three bytes or more and else one literal, keeps the invariant and makes progress |
| `DeflateFast.EmitToken` | Neof5Client/jni/libwebsockets-1.23/win32port/zlib/deflate.c:1557-1604 | The token added is the copy that the search found, or the literal if it found nothing |
| `DeflateFast.DeflateFast` | Neof5Client/jni/libwebsockets-1.23/win32port/zlib/deflate.c:1520-1608 | deflate_fast(): as deflate_slow(), with every match taken at once |
| `DeflateSession.Restart` | Neof5Client/jni/libwebsockets-1.23/win32port/zlib/deflate.c:848-854 | A full flush may follow any finished block: both loops go on from there with their invariants |
| `DeflateSession.Call` | Neof5Client/jni/libwebsockets-1.23/win32port/zlib/deflate.c:810-860 | One deflate() call after any others: no input byte is lost or repeated, none is taken after a finish, and a flush whose blocks fit in the output hands everything over |
| `DeflateSession.Session` | Neof5Client/jni/libwebsockets-1.23/win32port/zlib/deflate.c:582-860 | Whole runs, with either loop and any mixture of flushes: the blocks always cut a prefix of the input; after a flush whose blocks fit, the tokens expand to the whole input; lengths and distances are in range; a literal stands only where the search found nothing or the next search something longer (deflate_slow), and every copy is what the search at its place found |
| `DeflateRule.LazyFinds` | Neof5Client/jni/libwebsockets-1.23/win32port/zlib/deflate.c:1642-1675 | The lazy search overlooks no string it may visit: none matches longer than what is found, unless that is nice, or was not asked to be beaten, or was dropped for being no longer than 5 under the filtering strategy or 3 bytes more than 4096 back |
| `DeflateRule.FastFinds` | Neof5Client/jni/libwebsockets-1.23/win32port/zlib/deflate.c:1546-1556 | Nor does the search of deflate_fast |
| `RoundTrip.BlocksOut` | Neof5Client/jni/libwebsockets-1.23/win32port/zlib/trees.c:971-1010 | Whichever kind of block is chosen for each block of tokens, together they stand for the input |
| `RoundTrip.WrittenInflates` | Neof5Client/jni/libwebsockets-1.23/win32port/zlib/trees.c:925-1010 | A stream of such blocks, with any padding and anything behind it, inflates to the input in one call, with any window |
| `RoundTrip.WriteBlocks` | Neof5Client/jni/libwebsockets-1.23/win32port/zlib/trees.c:925-1020 | Handing any blocks to _tr_flush_block() one after the other, whatever kind each turns out to be, writes bytes that are those blocks in the format |
| `RoundTrip.WriteAndRead` | Neof5Client/jni/libwebsockets-1.23/win32port/zlib/trees.c:925-1020 | What is written for the blocks of a session, with any choice of kinds, inflates to the data |
| `RoundTrip.ThereAndBack` | Neof5Client/jni/libwebsockets-1.23/win32port/zlib/deflate.c:582-860 | Any input through either matcher in any calls, its blocks through the bit output, stored or with the static trees as asked, and the bytes through inflate: the result is the input |
| `TreesTables.BiReverse` | Neof5Client/jni/libwebsockets-1.23/win32port/zlib/trees.c:1171-1181 | The loop reverses the low bits of a code word |
| `TreesTables.GenCodes` | Neof5Client/jni/libwebsockets-1.23/win32port/zlib/trees.c:581-613 | For lengths that are not over-subscribed the counting gives every symbol its canonical code word, reversed, and 16 bits are enough |
| `TreesTables.InitLengths` | Neof5Client/jni/libwebsockets-1.23/win32port/zlib/trees.c:262-275 | The filling loops map every length to its symbol and every symbol to its first length, 258 to the symbol of its own |
| `TreesTables.InitNear` | Neof5Client/jni/libwebsockets-1.23/win32port/zlib/trees.c:277-285 | The loop for distances up to 256 |
| `TreesTables.InitFar` | Neof5Client/jni/libwebsockets-1.23/win32port/zlib/trees.c:286-294 | The loop for the distances above, by multiples of 128, leaves those below as they are |
| `TreesTables.StaticInit` | Neof5Client/jni/libwebsockets-1.23/win32port/zlib/trees.c:239-313 | The tables give for every length and distance the symbol of section 3.2.5 of RFC 1951 |
| `TreesTables.StaticTrees` | Neof5Client/jni/libwebsockets-1.23/win32port/zlib/trees.c:295-312 | The static trees have the code words of section 3.2.6, reversed |
| `TreesRuns.TreeRunsGive` | Neof5Client/jni/libwebsockets-1.23/win32port/zlib/trees.c:756-800 | Reading back the runs that send_tree() cuts the code lengths into gives the code lengths |
| `TreesRuns.TreeAreRuns` | Neof5Client/jni/libwebsockets-1.23/win32port/zlib/trees.c:756-800 | All runs have counts that their symbols can hold, and a length to repeat |
| `BitOutput.Overflow` | Neof5Client/jni/libwebsockets-1.23/win32port/zlib/trees.c:204-210 | When the 16-bit buffer overflows, the word that goes out and what stays are the same bits in order |
| `BitOutput.Pending.SendBits` | Neof5Client/jni/libwebsockets-1.23/win32port/zlib/trees.c:189-214 | Sending bits appends them to everything written so far |
| `BitOutput.Pending.Windup` | Neof5Client/jni/libwebsockets-1.23/win32port/zlib/trees.c:1203-1216 | The buffer is emptied with zero bits up to the byte boundary |
| `BitOutput.Pending.CopyBlock` | Neof5Client/jni/libwebsockets-1.23/win32port/zlib/trees.c:1222-1244 | Filler to the boundary, the length, its complement and the bytes |
| `BitOutput.Pending.StoredBlock` | Neof5Client/jni/libwebsockets-1.23/win32port/zlib/trees.c:871-883 | A stored block of the format is appended |
| `BitOutput.Pending.SendToken` | Neof5Client/jni/libwebsockets-1.23/win32port/zlib/trees.c:1088-1112 | A literal, or a length and a distance with their extra bits, is appended as the format writes it |
| `BitOutput.Pending.CompressBlock` | Neof5Client/jni/libwebsockets-1.23/win32port/zlib/trees.c:1076-1122 | All tokens and the end of the block are appended |
| `BitOutput.Pending.SendTree` | Neof5Client/jni/libwebsockets-1.23/win32port/zlib/trees.c:756-800 | The loop with its two counts sends exactly those runs, with their extra bits |
| `BitOutput.Pending.SendAllTrees` | Neof5Client/jni/libwebsockets-1.23/win32port/zlib/trees.c:842-866 | The header of a dynamic block for these code lengths is appended |
| `BitOutput.Pending.FlushBlock` | Neof5Client/jni/libwebsockets-1.23/win32port/zlib/trees.c:971-1020 | The kind of block follows from the sizes, the strategy and whether the bytes are there; that block of the format is appended, and the last one filled up to a byte |
| `BitOutput.MaxBlIndex` | Neof5Client/jni/libwebsockets-1.23/win32port/zlib/trees.c:822-828 | The last place in the order of the code length code with a length that is not zero |
| `Crc.ZerosXor` | Neof5Client/jni/libwebsockets-1.23/win32port/zlib/crc32.c:85-107 | Feeding zero bits is linear over exclusive or |
| `Crc.FeedIsZeros` | Neof5Client/jni/libwebsockets-1.23/win32port/zlib/crc32.c:85-107 | Feeding data bits is mixing them in first and feeding as many zero bits |
| `Crc.ZerosByLow` | Neof5Client/jni/libwebsockets-1.23/win32port/zlib/crc32.c:85-107 | Feeding zero bits may be split into what is shifted down and what the low bits contribute: why tables work |
| `Crc.RegisterAppend` | Neof5Client/jni/libwebsockets-1.23/win32port/zlib/crc32.c:221-253 | The register of a concatenation is that of the second part started from the first's |
| `CrcTable.PatternIsPoly` | Neof5Client/jni/libwebsockets-1.23/win32port/zlib/crc32.c:113-132 | The polynomial assembled from its exponents is 0xedb88320 |
| `CrcTable.OneEntry` | Neof5Client/jni/libwebsockets-1.23/win32port/zlib/crc32.c:136-141 | The eight-round loop gives the register after the byte and eight zero bits |
| `CrcTable.MakeTables` | Neof5Client/jni/libwebsockets-1.23/win32port/zlib/crc32.c:108-182 | Table k maps a byte to its CRC register followed by k zero bytes |
| `CrcTable.WordStep` | Neof5Client/jni/libwebsockets-1.23/win32port/zlib/crc32.c:258-260 | Thirty-two zero bits after a word are the exclusive or of four table entries |
| `CrcTable.RegisterWord` | Neof5Client/jni/libwebsockets-1.23/win32port/zlib/crc32.c:258-260 | Mixing in four bytes as one little-endian word and feeding 32 zero bits is feeding the four bytes in order |
| `CrcTable.Crc32Little` | Neof5Client/jni/libwebsockets-1.23/win32port/zlib/crc32.c:264-295 | For every buffer, address and starting value the result is the bit-at-a-time CRC of section 8 of RFC 1952 |
| `CrcCombine.TimesIsZeros` | Neof5Client/jni/libwebsockets-1.23/win32port/zlib/crc32.c:344-358 | A matrix whose columns feed n zero bits to the unit vectors does so to every vector |
| `CrcCombine.MatrixTimes` | Neof5Client/jni/libwebsockets-1.23/win32port/zlib/crc32.c:344-358 | The loop over the vector's bits is that matrix product |
| `CrcCombine.MatrixSquare` | Neof5Client/jni/libwebsockets-1.23/win32port/zlib/crc32.c:361-369 | Squaring the operator for n zero bits gives the operator for 2n, in place of the other matrix |
| `CrcCombine.OneZero` | Neof5Client/jni/libwebsockets-1.23/win32port/zlib/crc32.c:386-391 | The first matrix feeds one zero bit |
| `CrcCombine.FeedLengthBit` | Neof5Client/jni/libwebsockets-1.23/win32port/zlib/crc32.c:400-420 | Squaring and halving the length keeps the number of zero bits still to be fed |
| `CrcCombine.Combine` | Neof5Client/jni/libwebsockets-1.23/win32port/zlib/crc32.c:372-425 | The loop feeds exactly 8 zero bits per byte of the second length, and mixes in the second value; nothing for a length of 0 or less |
| `CrcCombine.Superposition` | Neof5Client/jni/libwebsockets-1.23/win32port/zlib/crc32.c:372-425 | Feeding data from a sum of registers is feeding zeros from one and the data from the other |
| `CrcCombine.CombineIsConcat` | Neof5Client/jni/libwebsockets-1.23/win32port/zlib/crc32.c:372-425 | The CRC of a concatenation is the first part's CRC after zero bits, mixed with the second part's |
| `CrcCombine.CombineMessages` | Neof5Client/jni/libwebsockets-1.23/win32port/zlib/crc32.c:372-425 | crc32_combine_ of two CRCs is the CRC of the concatenation, for all byte strings |
| `CrcCheck.Complemented` | Neof5Client/jni/libwebsockets-1.23/win32port/zlib/crc32.c:264-295 | The register starts as the complement of the CRC before and the CRC is its complement at the end |
| `CrcCheck.Residue` | Neof5Client/jni/libwebsockets-1.23/win32port/zlib/crc32.c:264-295 | Any message followed by its CRC, least significant byte first, has the CRC 0x2144df1c |
| `CrcCheck.CheckValue` | Neof5Client/jni/libwebsockets-1.23/win32port/zlib/crc32.c:264-295 | The CRC of the digits 1 to 9 is 0xcbf43926 |
| `Adler.NoOverflow` | Neof5Client/jni/libwebsockets-1.23/win32port/zlib/adler32.c:14-16 | Within 5552 bytes of a reduction both sums stay below 2^32 |
| `Adler.Do` | Neof5Client/jni/libwebsockets-1.23/win32port/zlib/adler32.c:18-22 | A run of unreduced additions keeps the sums congruent to the definition's and below 2^32 |
| `Adler.Adler32` | Neof5Client/jni/libwebsockets-1.23/win32port/zlib/adler32.c:60-128 | adler32() with deferred modulo, in its short, byte and block forms, is the per-byte definition of section 9 of RFC 1950 |
| `Adler.CombineSums` | Neof5Client/jni/libwebsockets-1.23/win32port/zlib/adler32.c:131-152 | The combine formula gives the sums of the concatenation |
| `Adler.CombineMessages` | Neof5Client/jni/libwebsockets-1.23/win32port/zlib/adler32.c:131-152 | adler32_combine_ of two checksums, with its conditional subtractions, is the checksum of the concatenation, for every second length |
| `Adler.BaseIsLargestPrime` | Neof5Client/jni/libwebsockets-1.23/win32port/zlib/adler32.c:14 | 65521 is the largest prime below 65536 |
| `Adler.NmaxIsLargest` | Neof5Client/jni/libwebsockets-1.23/win32port/zlib/adler32.c:14-16 | 5552 is the largest number of bytes after which the second sum still fits in 32 bits |
| `Adler.Abc` | Neof5Client/jni/libwebsockets-1.23/win32port/zlib/adler32.c:60-128 | The checksum of "abc" is 0x024d0127 |
| `Sha1.NextWord` | Neof5Client/jni/libwebsockets-1.23/lib/sha-1.c:177-180 | The word computed from four places of the 16-word buffer is the word of the 80-word schedule |
| `Sha1.HoldsNext` | Neof5Client/jni/libwebsockets-1.23/lib/sha-1.c:186-188 | Overwriting its place keeps the buffer equal to the last sixteen words |
| `Sha1.RunRounds` | Neof5Client/jni/libwebsockets-1.23/lib/sha-1.c:174-205 | Eighty rounds over the in-place schedule are the eighty rounds of section 6.1 of RFC 3174 |
| `Sha1.Context.Step` | Neof5Client/jni/libwebsockets-1.23/lib/sha-1.c:130-214 | One full block is hashed into the state and the buffer cleared |
| `Sha1.Context.Loop` | Neof5Client/jni/libwebsockets-1.23/lib/sha-1.c:263-286 | Taking in any piece of the message keeps state, buffer and bit count those of everything taken in |
| `Sha1.Context.Pad` | Neof5Client/jni/libwebsockets-1.23/lib/sha-1.c:229-261 | The padding appended is that of section 4 of RFC 3174 for every length modulo 64 |
| `Sha1.ReadDigest` | Neof5Client/jni/libwebsockets-1.23/lib/sha-1.c:288-309 | The twenty bytes read from the state are its words, most significant byte first |
| `Sha1.DigestUnique` | Neof5Client/jni/libwebsockets-1.23/lib/sha-1.c:288-309 | No other bytes stand for the same words |
| `Sha1.Digest` | Neof5Client/jni/libwebsockets-1.23/lib/sha-1.c:315-325 | For every message below 2^61 bytes and every cutting into pieces the digest is that of RFC 3174 |
| `Sha1Check.FByBits` | Neof5Client/jni/libwebsockets-1.23/lib/sha-1.c:99-102 | Bit by bit the functions are choice, parity, majority and parity |
| `Sha1Check.RotatesBits` | Neof5Client/jni/libwebsockets-1.23/lib/sha-1.c:104 | The rotations by 1, 5 and 30 move bit i to bit i + 1, i + 5 and i + 30 modulo 32 |
| `Sha1Check.RootsInRounds` | Neof5Client/jni/libwebsockets-1.23/lib/sha-1.c:94-97 | The constants are the integer parts of 2^30 times the square roots of 2, 3, 5 and 10, twenty rounds each |
| `Sha1Check.StartPattern` | Neof5Client/jni/libwebsockets-1.23/lib/sha-1.c:219-227 | The initial state is the pattern of rising and falling hexadecimal digits |
| `Sha1Check.AbcState` | Neof5Client/jni/libwebsockets-1.23/lib/sha-1.c:130-214 | The one block of the message "abc" leads to the five words of section 7.3 of RFC 3174 |
| `Sha1Check.AbcDigest` | Neof5Client/jni/libwebsockets-1.23/lib/sha-1.c:315-325 | The digest of "abc" is a9993e36 4706816a ba3e2571 7850c26c 9cd0d89d |
| `WebSocketFrame.EncodeAt` | Neof5Client/jni/libwebsockets-1.23/lib/output.c:430-541 | Every byte of a frame by its position: flags and opcode, length in one, two or eight bytes, key, masked payload |
| `WebSocketLayout.HasLayout` | Neof5Client/jni/libwebsockets-1.23/lib/output.c:430-541 | The bytes of a frame have the layout of section 5.2 of RFC 6455, told from the bytes alone: flags, length as a number in its shortest form, key, payload changed bit by bit by the key |
| `WebSocketLayout.OneReading` | Neof5Client/jni/libwebsockets-1.23/lib/output.c:430-541 | Bytes with that layout say one frame only |
| `WebSocketWrite.PutHeader` | Neof5Client/jni/libwebsockets-1.23/lib/output.c:439-515 | The header written backwards before the payload is that of the frame, and nothing else changes |
| `WebSocketWrite.MaskPayload` | Neof5Client/jni/libwebsockets-1.23/lib/output.c:533-536 | The masking loop masks exactly the bytes its int counter reaches, the key repeating every four |
| `WebSocketWrite.Write` | Neof5Client/jni/libwebsockets-1.23/lib/output.c:355-541 | The bytes sent are the wire image of the frame: by the numbers of section 5.2 of RFC 6455 the low four bits of the first byte are 1 for text, 2 for binary, 0 for a continuation, and its top bit is set unless FIN is held back; with a payload that is masked to its end they have the layout of a frame throughout; the buffer outside is unchanged |
| `WebSocketWrite.WireIsFrame` | Neof5Client/jni/libwebsockets-1.23/lib/output.c:533-541 | The wire image is the frame of section 5.2 of RFC 6455 if and only if it is unmasked, or the key is zero, or the payload is shorter than 2^31 - 4 bytes |
| `WebSocketWrite.LongFails` | Neof5Client/jni/libwebsockets-1.23/lib/output.c:533-536 | A masked payload of 2^31 - 4 bytes, with any key that is not zero, is not sent as its frame |
| `WebSocketConnection.Receiver.ServerByte` | Neof5Client/jni/libwebsockets-1.23/lib/parsers.c:619-1044 | On the real buffer a byte does what the receiver's step says: state, bytes held, deliveries, failure |
| `WebSocketConnection.Receiver.ClientByte` | Neof5Client/jni/libwebsockets-1.23/lib/client-parser.c:24-420 | The same for the client receiver |
| `WebSocketConnection.Receiver.ServerSpill` | Neof5Client/jni/libwebsockets-1.23/lib/parsers.c:899-1041 | The full or final buffer is delivered, echoed or answered by opcode, and emptied |
| `WebSocketConnection.Receiver.ClientSpill` | Neof5Client/jni/libwebsockets-1.23/lib/client-parser.c:254-412 | The same for the client receiver |
| `WebSocketReceive.ClientKeepsOk` | Neof5Client/jni/libwebsockets-1.23/lib/client-parser.c:34-412 | Every byte keeps: in the payload state at least one byte is outstanding and the buffer is not full, in every other state it is empty; deliveries are at most the limit |
| `WebSocketReceive.ClientRunOk` | Neof5Client/jni/libwebsockets-1.23/lib/client-parser.c:34-412 | The same over every byte stream |
| `WebSocketFollow.OneByte` | Neof5Client/jni/libwebsockets-1.23/lib/parsers.c:619-1044 | Inside a nonempty data frame, masked or not (at the client not both masked and short), the next byte leads to the state for the next position, with the payload unmasked so far delivered or held |
| `WebSocketFollow.PartRun` | Neof5Client/jni/libwebsockets-1.23/lib/parsers.c:619-1044 | The same for any part of a frame; the whole frame is delivered as unmasked from where the receiver's index stood |
| `WebSocketFollow.FramesRun` | Neof5Client/jni/libwebsockets-1.23/lib/parsers.c:619-1044 | Any sequence of nonempty frames of the peer is delivered with its opcodes and FIN flags, in chunks that concatenate to the payloads, and leaves the receiver ready for the next |
| `WebSocketFollow.ReceivedWhole` | Neof5Client/jni/libwebsockets-1.23/lib/parsers.c:863-898 | Unmasking from the first byte of the key gives back the payload |
| `WebSocketControl.PeerAnswered` | Neof5Client/jni/libwebsockets-1.23/lib/parsers.c:899-955 | Control and empty frames of the peer: a ping is answered by a pong with its payload, a close by a close with its payload unless one was sent before, and ends the connection; a client's user gets the payload of a pong |
| `WebSocketControl.ReadyWhen` | Neof5Client/jni/libwebsockets-1.23/lib/parsers.c:849-860 | After such a frame, other than a close, a receiver is ready for the next one if and only if it is the client or there was a payload |
| `WebSocketControl.EmptyFails` | Neof5Client/jni/libwebsockets-1.23/lib/parsers.c:849-860 | After an empty masked frame the server takes the next byte for payload, with 2^64 - 1 bytes to come |
| `WebSocketControl.LongRefused` | Neof5Client/jni/libwebsockets-1.23/lib/client-parser.c:61-78 | A control frame with an extended length ends the connection with nothing handed out or answered |
| `WebSocketControl.FrameType` | Neof5Client/jni/libwebsockets-1.23/lib/client-parser.c:34-60 | All chunks of a frame are of its type, text or binary; a continuation is of the type set last |
| `WebSocketMasked.ReceivedSame` | Neof5Client/jni/libwebsockets-1.23/lib/client-parser.c:223-230 | A masked payload of four bytes or more comes out right if and only if the key looks the same from where unmasking starts |
| `WebSocketMasked.ShortIsStuck` | Neof5Client/jni/libwebsockets-1.23/lib/client-parser.c:61-95 | After any masked data frame shorter than 126 bytes the client is in the payload state with 128 bytes to come |
| `WebSocketMasked.ReceivesWhen` | Neof5Client/jni/libwebsockets-1.23/lib/client-parser.c:34-252 | A ready receiver delivers a nonempty data frame and is ready again if and only if it is the server, or the frame is not masked, or the payload has 126 bytes or more and the key looks the same from the receiver's index |
| `WebSocketMasked.ShortFails` | Neof5Client/jni/libwebsockets-1.23/lib/client-parser.c:79-82 | The masked letter A is not delivered to any ready client |
| `WebSocketMasked.SecondFails` | Neof5Client/jni/libwebsockets-1.23/lib/client-parser.c:183-216 | Of two long frames with the same key the client gets the first right and the second wrong |
| `WebSocketSession.Feed` | Neof5Client/jni/libwebsockets-1.23/lib/parsers.c:1047-1094 | Feeding bytes one at a time to the object is the run of the receiver |
| `WebSocketSession.Send` | Neof5Client/jni/libwebsockets-1.23/lib/output.c:355-541 | A message that can be sent goes out as the peer's frame, with the opcode, FIN bit and layout of its kind |
| `WebSocketSession.Exchange` | Neof5Client/jni/libwebsockets-1.23/lib/output.c:430-541 | Whole conversations, client to server and server to client, for any messages and any buffer size: text arrives with opcode 1 as text, binary data with opcode 2 as binary, continuations with opcode 0 as what they continue, with the FIN flags they were sent with, in order, in chunks that make up the payloads |
| `MinilexTrie.ExtendTrie` | Neof5Client/jni/libwebsockets-1.23/lib/minilex.c:352-361 | A new option and state for the next character keep the states a trie of the words so far |
| `MinilexTrie.FinishTrie` | Neof5Client/jni/libwebsockets-1.23/lib/minilex.c:366-368 | Marking the end of a keyword overwrites no option, as no keyword is a prefix of another |
| `MinilexTrie.ExtendInOrder` | Neof5Client/jni/libwebsockets-1.23/lib/minilex.c:352-361 | States stay numbered, and options ordered, by first appearance |
| `MinilexTrie.Build` | Neof5Client/jni/libwebsockets-1.23/lib/minilex.c:334-372 | The states are the trie of all keywords, numbered by the first appearance of their texts |
| `MinilexTable.BuiltStates` | Neof5Client/jni/libwebsockets-1.23/lib/minilex.c:334-372 | The trie is a function of the keyword list alone |
| `MinilexTable.EdgeFacts` | Neof5Client/jni/libwebsockets-1.23/lib/minilex.c:374-410 | Every jump leads strictly forward, by a whole number of options, to the state of the longer text; only terminals have jump 0 |
| `MinilexTable.Emit` | Neof5Client/jni/libwebsockets-1.23/lib/minilex.c:388-412 | The table holds every option at its place, and nothing else; it is refused exactly when a jump exceeds 255 options |
| `MinilexTable.LextableDecode` | Neof5Client/jni/libwebsockets-1.23/lib/minilex.c:306-321 | At a state's place the decoder finds the state for the character, fails with -1 without one, and stays at a terminal |
| `MinilexTable.Match` | Neof5Client/jni/libwebsockets-1.23/lib/minilex.c:418-432 | Walking the table matches a keyword the text starts with, or fails at the first character that leaves the trie, or ends inside a keyword |
| `MinilexTable.Recognize` | Neof5Client/jni/libwebsockets-1.23/lib/minilex.c:306-432 | Compiling and walking: refused if and only if a jump between the states of the keywords does not fit a byte; otherwise keyword n is reported if and only if the text starts with it |
| `MinilexExample.Compile` | Neof5Client/jni/libwebsockets-1.23/lib/minilex.c:334-412 | The table of the keywords GE and H, byte by byte |
| `Json.SerializeStr` | Neof5Client/jni/neof5/picojson.h:287-313 | Appends the quoted, escaped string |
| `JsonInput.Input.GetC` | Neof5Client/jni/neof5/picojson.h:368-382 | Reads at the logical position, pushed back or not, and moves on by one; -1 at the end |
| `JsonInput.Input.UngetC` | Neof5Client/jni/neof5/picojson.h:383-388 | Gives the last character back; the assertion against giving back twice is its precondition, proved at every call |
| `JsonInput.Input.SkipWs` | Neof5Client/jni/neof5/picojson.h:391-399 | Stops at the first character that is not white space |
| `JsonInput.Input.Expect` | Neof5Client/jni/neof5/picojson.h:400-407 | Succeeds exactly if the character follows after white space, and otherwise stays before what does |
| `JsonParse.ParseQuadHex` | Neof5Client/jni/neof5/picojson.h:421-440 | Four hexadecimal digits give their value, anything else -1 |
| `JsonParse.ParseCodepoint` | Neof5Client/jni/neof5/picojson.h:442-481 | Succeeds exactly on a code point outside the surrogates or a surrogate pair, and appends its UTF-8 |
| `JsonParse.Utf8Decodes` | Neof5Client/jni/neof5/picojson.h:461-479 | The UTF-8 appended stands for that code point and no other |
| `JsonCheck.Utf8Form` | Neof5Client/jni/neof5/picojson.h:461-479 | The bytes appended have the form of section 3 of RFC 3629: a lead byte, and tail bytes of six bits each |
| `JsonCheck.PairHalves` | Neof5Client/jni/neof5/picojson.h:447-460 | A pair of escapes is the code point beyond the first plane whose two halves its digits are |
| `JsonCheck.EveryPoint` | Neof5Client/jni/neof5/picojson.h:442-481 | Every code point but the surrogates can be written with escapes and is read as its UTF-8 |
| `JsonCheck.Letters` | Neof5Client/jni/neof5/picojson.h:496-511 | The one-letter escapes and what they stand for are those of section 7 of RFC 8259 |
| `JsonParse.QuotedUnique` | Neof5Client/jni/neof5/picojson.h:483-519 | A string text can be read by the grammar in one way only |
| `JsonParse.ParseString` | Neof5Client/jni/neof5/picojson.h:483-519 | Succeeds if and only if a string of the grammar follows, returns what its characters and escapes (all of them, surrogate pairs included) stand for, and stops behind the closing quote |
| `JsonExact.TreeFound` | Neof5Client/jni/neof5/picojson.h:521-611 | Wherever a text of the grammar stands, reading from left to right finds it, whole |
| `JsonExact.TreeReads` | Neof5Client/jni/neof5/picojson.h:521-611 | What is read from left to right is a text of the grammar, and stands there |
| `JsonExact.Exact` | Neof5Client/jni/neof5/picojson.h:521-611 | Reading succeeds if and only if a text of the grammar stands there, and there is only one |
| `JsonValue.InsertSorted` | Neof5Client/jni/neof5/picojson.h:664-668 | Setting a member keeps the keys sorted and unique |
| `JsonValue.DenotesInOrder` | Neof5Client/jni/neof5/picojson.h:664-668 | In every value that a text stands for, objects are sorted and without double keys, at every level |
| `JsonValue.ParseArray` | Neof5Client/jni/neof5/picojson.h:521-536 | On any input: the verdict, value and position of the array that stands there, if one does |
| `JsonValue.ParseMember` | Neof5Client/jni/neof5/picojson.h:543-555 | On any input: a quoted key, a colon and a value, with white space anywhere between |
| `JsonValue.ParseObject` | Neof5Client/jni/neof5/picojson.h:538-557 | On any input: the verdict, members and position of the object that stands there; of double keys the last one counts |
| `JsonValue.Parse` | Neof5Client/jni/neof5/picojson.h:576-611 | On any input: it succeeds exactly where a text of the grammar stands, returns what that stands for and stops behind it; no character is pushed back twice |
| `JsonValue.ParseText` | Neof5Client/jni/neof5/picojson.h:708-730 | On every text: success if and only if it starts with a text of the grammar, the value that stands for, and the cursor |
| `JsonValue.PastNumber` | Neof5Client/jni/neof5/picojson.h:559-574 | Parsing the digit 1 and a space gives 1, with the cursor behind the space |
| `JsonValue.TreeOfWrites` | Neof5Client/jni/neof5/picojson.h:315-358 | What the serializer writes is a text of the grammar that stands for the value |
| `JsonValue.RoundTrip` | Neof5Client/jni/neof5/picojson.h:315-358 | Parsing the serialization of any value without numbers returns the value with the cursor exactly at its end, whatever follows |
| `JsonCheck.ObjectParts` | Neof5Client/jni/neof5/picojson.h:538-557 | Objects are written with braces and commas |
| `JsonCheck.LessMeans` | Neof5Client/jni/neof5/picojson.h:664-668 | Keys are ordered by the first byte in which they differ, a prefix first |
| `Cards.AddIds` | Neof5Client/jni/neof5/Cards.cpp:277-282 | Setting a bit adds that card to the set, for sets of all 53 cards |
| `Cards.RemoveIds` | Neof5Client/jni/neof5/Cards.cpp:270-275 | Clearing a bit removes that card |
| `Cards.SameIds` | Neof5Client/jni/neof5/Cards.hpp:144-146 | Two words that hold the same cards are equal: a set of words is a set of hands |
| `Cards.Size` | Neof5Client/jni/neof5/Cards.cpp:249-258 | The number of set bits is the number of cards |
| `Cards.At` | Neof5Client/jni/neof5/Cards.cpp:329-341 | The index-th set bit is the index-th card in order |
| `DaifugoRule.TryGetFirstCard` | Neof5Client/jni/neof5/DaifugoRule.cpp:23-42 | Succeeds exactly on nonempty sets of one number, jokers aside, and gives the weakest card |
| `DaifugoRule.CompareCards` | Neof5Client/jni/neof5/DaifugoRule.cpp:44-57 | Positive exactly if the second card beats the first, zero exactly for equal numbers |
| `DaifugoRule.CanPut` | Neof5Client/jni/neof5/DaifugoRule.cpp:59-79 | Every verdict exactly when the rules, stated card by card, call for it: as many cards, each hand of one number, every card of the hand beyond every card of the table in the order the revolution turns round, jokers going with any number and alone above all |
| `DaifugoRule.LegalIsAllowed` | Neof5Client/jni/neof5/DaifugoRule.cpp:44-79 | Comparing the two first cards decides the rule for all cards |
| `DaifugoRule.JokerBeats` | Neof5Client/jni/neof5/DaifugoRule.cpp:49-51 | Before and after a revolution the joker may be put on any other single card, and no single card on the joker |
| `Cards.NumOrder` | Neof5Client/jni/neof5/Cards.cpp:159-162 | The order of strength goes from the threes over the kings to the ones and twos |
| `SagePlayer.PruningIsSafe` | Neof5Client/jni/neof5/SagePlayer.cpp:51-52 | With at most three cards on the table a hand of three or more that cannot be put has no superset that can |
| `SagePlayer.TryCard` | Neof5Client/jni/neof5/SagePlayer.cpp:45-58 | One round leaves everything legal above the new hand found, also when the hand was seen before or pruned |
| `SagePlayer.GenAllCombination` | Neof5Client/jni/neof5/SagePlayer.cpp:38-60 | The search terminates, adds only legal hands above its base, and with at most three cards on the table all of them |
| `SagePlayer.EnumerateHands` | Neof5Client/jni/neof5/SagePlayer.cpp:63-76 | Exactly the legal hands if the table holds at most three cards, none otherwise; so it is complete if and only if the table holds at most three cards or the deck has no answer to it; the joker is found on every other single card |
| `SagePlayer.AnswerExists` | Neof5Client/jni/neof5/DaifugoRule.cpp:44-79 | On one card or more there is a legal hand if and only if the table is of one number and not the joker alone, and the deck has as many cards of one stronger rank, the joker counted, or it has the joker and the table is one card |
| `SagePlayer.MissedHand` | Neof5Client/jni/neof5/SagePlayer.cpp:51-52 | Four threes on the table, four fours in the deck: the fours are legal and the search finds nothing |

## Left out

- Inflate.Inflate: raw streams only; zlib and gzip headers and trailers, Z_BLOCK and Z_TREES, preset dictionaries, inflateSync, inflatePrime, inflateCopy and failing allocation are not modelled.
- Inflate.Step: the modes HEAD, TYPE, COPY_ and LEN_ fall through at once and are merged with their successors; the inner loops of LENLENS and CODELENS are rounds of the main loop; the fixed tables are kept in one array of 1444 entries.
- BuildTable.Build: the result 1 for too little table space is stated as a function of the lengths, without a claim when it occurs; the work array has the size needed.
- InflateFast.FastCopy: a copy unrolled by three is one loop; the cases of where the bytes come from are kept.
- DeflateSession.Session: deflate_stored, deflate_rle, deflate_huff, deflateParams, preset dictionaries and the header are not modelled; nor are the empty blocks that mark a partial, sync or full flush, and Z_BUF_ERROR for a repeated flush.
- DeflateSession.Call: the output buffer is counted in blocks; pending bytes, the empty flush marker blocks and the error returns for bad arguments are left out.
- BitOutput.Pending.FlushBlock: the trees (build_tree, gen_bitlen), the sizes that the choice rests on and the frequencies are parameters: any code lengths that inflate_table() takes and that have words for the tokens will do. _tr_align, detect_data_type and the debug variants are left out.
- RoundTrip.ThereAndBack: blocks with dynamic trees are covered by WriteAndRead only, as the trees are not built here; bytes of a block are offered for storing only if they are at most 65535.
- TreesTables.StaticInit: the tables of trees.h, which these loops generate, are not compared with them.
- DeflateSlow.DeflateSlow: a block is logged and its tokens cleared, and output space is the number of blocks that fit. The gz layers are left out.
- DeflateMatch.LongestMatch: the UNALIGNED_OK and FASTEST variants and the assembler versions are left out; the zeroing of memory above the window is not needed, as arrays are initialised.
- CrcTable.MakeTables: tables 4 to 7, the byte-reversed copies for big-endian machines, are left out.
- CrcTable.Crc32Little: the big-endian loop, the portable byte loop and the guard for threads that build the tables at the same time are left out.
- Adler.CombineMessages: negative second lengths, the null buffer and the NO_DIVIDE macros are left out.
- Sha1.Digest: a little-endian machine; messages of 2^61 bytes or more are excluded, since their bit count wraps around.
- WebSocketWrite.Write: the payload has fewer than 2^63 bytes, so that the top length byte is not cut; signed overflow is taken to wrap, `size_t` to have 64 bits. Partial sends, extensions, close, ping and pong frames and their padding are left out.
- WebSocketConnection.Receiver.ServerByte: extension callbacks, reserved bits and what the user callback answers are left out.
- WebSocketConnection.Receiver.ClientByte: the same.
- WebSocketConnection.Receiver.ServerSpill: a reply that cannot be sent, which ends the connection, and extension callbacks are left out.
- WebSocketConnection.Receiver.ClientSpill: the same.
- WebSocketMasked.ReceivesWhen: the index into the key, which the client's writer shares (output.c:44, 536), is whatever it is when the frame starts; it is not reduced modulo 256, which only its value modulo 4 shows.
- WebSocketControl.PeerAnswered: the payload of a control frame fits in the receiver's buffer.
- WebSocketSession.Exchange: empty messages are left out: the writer refuses them (output.c:370-374). What the callbacks answer and the reserved bits are left out; messages are short enough to be masked completely.
- MinilexTable.Recognize: the limits of 1000 states and 30 options per state are not modelled; nor is the header parser that uses the table at run time.
- JsonValue.ParseText: a number is the text read; whether strtod takes all of it is a parameter, and its value is not modelled.
- JsonValue.RoundTrip: numbers, which rest on snprintf, are left out. Error messages and the to_str form are left out.
- SagePlayer.EnumerateHands: class A rules only; the class B staircase rule, the strategy with its weights and time limit, and card sets from strings are left out.
- Sockets, TLS, threads, the JNI layer, logging and the game's screens are left out.
