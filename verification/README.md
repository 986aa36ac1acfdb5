# Verified models of the loader's checksums, the video player, NetSurf's fetcher and their data transformers

A Dafny model of the parts of this repository where an optimised, incremental or concurrent form has to agree
with a simple one, with proofs that it does. Each file is one component:

| file | what it models |
|---|---|
| `Gf2.dfy`, `Crc32.dfy`, `Crc32Combine.dfy` | the CRC-32 register, its tables, the two four-byte forms, and the combination by squared matrices |
| `Adler32.dfy` | Adler-32 with delayed and division-free reductions, and its combination |
| `ChunkCoding.dfy`, `VideoStream.dfy` | the grammar of chunked bodies, and the video player's HTTP stream with its 4 MiB read-ahead ring |
| `PacketQueue.dfy`, `FrameSlots.dfy`, `SeekProtocol.dfy`, `SeekEnd.dfy`, `PlayClock.dfy` | the player's queues, frame slots, serials, end and clock |
| `HttpText.dfy`, `HttpFeed.dfy`, `HttpChunks.dfy` | how NetSurf's fetcher reads a response, in any segments |
| `Connections.dfy`, `Fetcher.dfy` | its connections: polls, callbacks, retries, the pool of kept ones, the cap on TLS sessions |
| `Dns.dfy` | its lookup worker and the job slots they share |
| `Iconv.dfy` | the character set converter |
| `Heap.dfy` | the player's heap of linked, aligned blocks |
| `Sound.dfy` | the resampling voice queue of Red Alert |
| `Png.dfy` | the PNG row filters and sample unpacking of the NetSurf build script |
| `Wrappers.dfy`, `Division.dfy` | optional values, bytes and 32-bit words, division |

`dafny verify dfyconfig.toml` verifies all of it.

Code that loops over buffers or changes fields is a method or a class with a loop, proved against a function;
protocols between tasks are state machines whose steps are single loads and stores of shared variables, in
sequentially consistent order (the code has such fences), with an invariant kept by every step. What lies
outside (the network, a server, NetSurf's callbacks, the loader) is any behaviour within its contract: a server
is a fixed resource that answers truthfully, a callback may set up, start or abort any fetch, the loader never
hands out a handle or a raw block that is still out.

Seven things hold less widely than one might expect. Each has its exact condition, and where a run shows it,
that run:

- `adler32_z` differs from the definition on start values that are no checksum: with an empty buffer it reduces
  what the definition leaves alone, and with one byte it takes BASE off the second sum at most once.
  `Adler32.Adler32Z` gives the definition's result exactly when both sums are below BASE (empty buffer), or the new
  second sum is below twice BASE (one byte), and always for more; so for every start value that is a checksum.
- `papp_stream_read` need not return. A read past the end of a resource of unknown size takes its position for the
  size (a 416 answer); after a seek back, a read at the end asks again and again. On a server that answers 416 exactly
  from the end on, and else a 206 with a byte at least, a read asks a bounded number of times, however many answers
  there would be, exactly unless the stream can seek and the position is at or past the resource's end but before the
  stream's size (`VideoStream.Stream.Read`, `VideoStream.Stream.Turn`, the run in `VideoStream.AsksForEver`). With an
  open connection still within reach of such a position the read first receives what is left on it, and may fail in
  that or learn the size. A server that gives the size with every 206 keeps all reads from it (`SizeTold`).
- The player can find a stream ended while something of it waits, in two ways. When a seek fails, the demuxer reads on
  under the same serial, whose end may have been pushed and reached before: exactly the seeks that fail behind that end
  can lead to it (`SeekEnd.FailedSeekExact`, the run in `SeekEnd.EndTooEarly`). And the check for the end is five loads:
  when a seek succeeds after the first of them, exactly then the end found is that of a serial that has passed
  (`SeekEnd.EndIsCurrent`, the run in `SeekEnd.OldEndFound`). Otherwise nothing waits (`SeekEnd.EndMeansDrained`).
- `papp_http.c` reads chunk sizes of 2^32 and more, and digits beyond 8192, too small. It delivers a coding as it
  comes exactly when each chunk is below 2^32 bytes and has at most 8192 digits of size (`HttpChunks.InStepExact`); with
  a padded size a response can end well without its body (`HttpChunks.PaddedSize`). Of the whole alone the condition is
  not the exact one: data that looks like framing can make up for a size read wrong (`HttpChunks.LuckyCoding`).
- The player's main task passes `p->serial` to `clock_set` after checking its picture's serial, so that a seek in
  between gives the old picture's time the new serial (`SeekProtocol.ClockFreshness`, `SeekProtocol.StaleClock`).
- After `dns_reap` a slot can be both abandoned and done: exactly when its lookup ended after the reap had looked
  at it (`Dns.AfterReap`, `Dns.ReapMissesOne`). The next reap frees it.
- A voice's chunk counters are 32 bits wide and taken modulo 3; behind 2^32 chunks the slot to be written can be a
  queued one (`Sound.WrappedSlots`, `Sound.WrapOverwrites`).

## Model

| member | source | states |
|---|---|---|
| Gf2.ShiftBitsXor | esphome/components/papp_loader/crc32.c:60-87 | the register that shifts without input is linear over GF(2), for any number of bits |
| Gf2.FeedBitsConcat | esphome/components/papp_loader/crc32.c:60-87 | feeding two bit strings one after the other is feeding their concatenation |
| Gf2.FeedBitsAffine | esphome/components/papp_loader/crc32.c:60-87 | what a register becomes is the shifted start added to what the input alone gives |
| Gf2.PolynomialBits | esphome/components/papp_loader/crc32.c:103-106 | the constant the table code builds from its exponent list is the CRC-32 polynomial, bit by bit |
| Gf2.PolyOfShiftBit | esphome/components/papp_loader/crc32.c:60-87 | one shift of the register is multiplication by x modulo the polynomial, read as sets of exponents |
| Gf2.RegisterDivides | esphome/components/papp_loader/crc32.c:60-87 | shifting bits through the register is polynomial division with remainder |
| Gf2.RemainderUnique | esphome/components/papp_loader/crc32.c:60-87 | such a remainder is unique |
| Crc32.RegisterIsRemainder | esphome/components/papp_loader/crc32.c:60-87 | the register after a message is the remainder of x^32 times the message modulo the polynomial, and nothing else is (section 8 of RFC 1952) |
| Crc32.CrcConcat | esphome/components/papp_loader/crc32.c:202-233 | a CRC continued over a second buffer is the CRC of both |
| Crc32.CrcShift | esphome/components/papp_loader/crc32.c:344-425 | a start value enters the CRC only through 8 zero bits per byte: the law the combination rests on |
| Crc32.CrcOfConcat | esphome/components/papp_loader/crc32.c:344-425 | the CRC of a concatenation from the two CRCs and the second length |
| Crc32.ByteThroughTable | esphome/components/papp_loader/crc32.c:193-233 | eight shifts of any register are one table access |
| Crc32.WordThroughTables | esphome/components/papp_loader/crc32.c:240-300 | thirty-two shifts of any register are four table accesses, added |
| Crc32.FeedWord | esphome/components/papp_loader/crc32.c:240-300 | feeding the bits of a word is adding it to the register and shifting as often |
| Crc32.RegisterByte | esphome/components/papp_loader/crc32.c:193-233 | the bytewise step is eight steps of the bit-at-a-time register |
| Crc32.RegisterWord | esphome/components/papp_loader/crc32.c:240-300 | the four-byte step is four bytewise steps, for a word loaded in little-endian order |
| Crc32.MakePolynomial | esphome/components/papp_loader/crc32.c:103-106 | the loop over the exponent list yields the polynomial |
| Crc32.EntryOfByte | esphome/components/papp_loader/crc32.c:108-114 | the loop of eight shifts yields the table entry of a byte |
| Crc32.MakeFirstTable | esphome/components/papp_loader/crc32.c:108-114 | the first table holds the eight-fold shift of every byte |
| Crc32.MakeColumn | esphome/components/papp_loader/crc32.c:117-127 | the further entries of one byte, and their byte-swapped forms |
| Crc32.MakeCrcTable | esphome/components/papp_loader/crc32.c:88-131 | all eight tables, in place: entry k of a byte is the byte shifted 8(k+1) times, tables 4 to 7 byte-swapped |
| Crc32.SwapFacts | esphome/components/papp_loader/zutil.h:268-269 | the byte-swapping macro reverses the four bytes and is its own inverse |
| Crc32.Crc32Bytewise | esphome/components/papp_loader/crc32.c:225-233 | the bytewise loops compute the reference CRC |
| Crc32.StepWord | esphome/components/papp_loader/crc32.c:240-254 | one four-byte step of the little-endian form advances the reference register over those four bytes |
| Crc32.Crc32Little | esphome/components/papp_loader/crc32.c:266-299 | the little-endian form computes the reference CRC for every buffer, start value and alignment |
| Crc32.StepByteBig | esphome/components/papp_loader/crc32.c:301-303 | one byte step of the big-endian form advances the swapped reference register over that byte |
| Crc32.StepWordBig | esphome/components/papp_loader/crc32.c:301-303 | one four-byte step of the big-endian form advances the swapped reference register over those four bytes |
| Crc32.Crc32Big | esphome/components/papp_loader/crc32.c:306-337 | the big-endian form computes the same CRC |
| Crc32.Crc32Z | esphome/components/papp_loader/crc32.c:202-234 | whichever form is dispatched to, the result is the reference CRC; 0 for a null buffer |
| Crc32Combine.ApplyXor | esphome/components/papp_loader/crc32.c:344-358 | a matrix applied to a vector is linear |
| Crc32Combine.ColumnsDecide | esphome/components/papp_loader/crc32.c:361-369 | linear maps that agree on the 32 unit vectors agree everywhere |
| Crc32Combine.TwiceLinear | esphome/components/papp_loader/crc32.c:361-369 | a matrix applied twice is linear |
| Crc32Combine.ZerosLinear | esphome/components/papp_loader/crc32.c:344-425 | running zero bits is linear |
| Crc32Combine.SquareComposes | esphome/components/papp_loader/crc32.c:361-369 | the squared matrix is the map applied twice |
| Crc32Combine.RunsZerosApply | esphome/components/papp_loader/crc32.c:344-425 | a matrix whose columns run some zero bits runs them on every vector |
| Crc32Combine.SquareRunsTwice | esphome/components/papp_loader/crc32.c:361-425 | squaring doubles the number of zero bits |
| Crc32Combine.MatrixTimes | esphome/components/papp_loader/crc32.c:344-358 | the loop over the set bits is the matrix applied to the vector |
| Crc32Combine.MatrixSquare | esphome/components/papp_loader/crc32.c:361-369 | the array filled in is the square of the matrix: each column the matrix applied to that column |
| Crc32Combine.OneZeroBit | esphome/components/papp_loader/crc32.c:384-392 | the first matrix runs one zero bit |
| Crc32Combine.HalveLength | esphome/components/papp_loader/crc32.c:400-421 | one turn of the even/odd loop: halving the length and doubling the zeros applies the right number of them |
| Crc32Combine.ApplyBit | esphome/components/papp_loader/crc32.c:400-421 | one turn applies its zeros exactly when the length is odd |
| Crc32Combine.Combine | esphome/components/papp_loader/crc32.c:372-425 | for all byte strings with those CRCs and that second length, the result is the CRC of their concatenation; non-positive lengths return the first CRC |
| Adler32.ReduceAtEnd | esphome/components/papp_loader/adler32.c:63-131 | the per-byte definition of section 2.2 of RFC 1950 may be reduced once, at the end |
| Adler32.BlockFits | esphome/components/papp_loader/adler32.c:63-131 | both sums stay below 2^32 over a block of NMAX bytes |
| Adler32.NMaxIsTight | esphome/components/papp_loader/adler32.c:13-14 | they would not over one byte more |
| Adler32.ChopKeeps | esphome/components/papp_loader/adler32.c:27-32 | CHOP keeps a number modulo BASE |
| Adler32.Mod28Exact | esphome/components/papp_loader/adler32.c:33-37 | MOD28 is the remainder exactly when one subtraction suffices, and always below 2^28 |
| Adler32.ModExact | esphome/components/papp_loader/adler32.c:38-42 | the division-free MOD is the remainder for every 32-bit number |
| Adler32.Mod63Exact | esphome/components/papp_loader/adler32.c:43-54 | the division-free MOD63 is the remainder for every number below 2^63 |
| Adler32.Reduce | esphome/components/papp_loader/adler32.c:36-60 | the reduction, with division or without it |
| Adler32.Add16 | esphome/components/papp_loader/adler32.c:16-20 | the unrolled macro is sixteen steps of the two sums |
| Adler32.SumBlock | esphome/components/papp_loader/adler32.c:98-107 | a block of NMAX bytes, reduced at its end |
| Adler32.SumRest | esphome/components/papp_loader/adler32.c:109-127 | the remaining bytes, reduced at their end |
| Adler32.ShortSums | esphome/components/papp_loader/adler32.c:86-96 | the short form: one subtraction for the first sum, one reduction for the second |
| Adler32.OneByte | esphome/components/papp_loader/adler32.c:73-81 | the one-byte form is the definition's exactly when the new second sum is below twice BASE |
| Adler32.LongSums | esphome/components/papp_loader/adler32.c:98-131 | the long form yields the two sums of the definition, reduced |
| Adler32.Adler32Z | esphome/components/papp_loader/adler32.c:63-131 | the result is the definition exactly when the start value or the buffer lets the reductions suffice (`Reducible`), and always congruent to it |
| Adler32.CombineCongruent | esphome/components/papp_loader/adler32.c:143-169 | the combination formula is congruent to the sums of the concatenation |
| Adler32.Combine | esphome/components/papp_loader/adler32.c:143-169 | for all byte strings with those checksums and that second length, the result is the checksum of their concatenation; a negative length gives 0xffffffff |
| ChunkCoding.DecodeConcat | ports/video/papp_io.c:537-591 | cutting the input of the chunk decoder anywhere makes no difference |
| ChunkCoding.DecodeData | ports/video/papp_io.c:520-535 | taking chunk data in pieces is taking it byte by byte |
| ChunkCoding.DecodeChunk | ports/video/papp_io.c:537-591 | one chunk with its extension delivers its data |
| ChunkCoding.DecodeTrailers | ports/video/papp_io.c:574-588 | trailer lines and the empty line are skipped |
| ChunkCoding.DecodeCoding | ports/video/papp_io.c:537-591 | every chunked coding (section 7.1 of RFC 9112), with extensions and trailers, decodes to its body and stops exactly behind its last byte |
| VideoStream.AnswerPromises | ports/video/papp_io.c:437-481 | what a truthful 200, 206 or 416 answer promises about the bytes that follow |
| VideoStream.ServedByte | ports/video/papp_io.c:437-448 | a 206 answer with at least one byte from the offset on leaves a body that is not empty, whichever way it is coded |
| VideoStream.FramingAdvances | ports/video/papp_io.c:537-591 | framing bytes do not change the promised body |
| VideoStream.ChunkAdvances | ports/video/papp_io.c:520-535 | taking chunk data takes it off the promised body |
| VideoStream.CellsDiffer | ports/video/papp_io.c:600-620 | offsets less than a ring apart have different cells |
| VideoStream.RingGrows | ports/video/papp_io.c:600-620 | new bytes in their cells keep what the ring holds, but for what falls off its start |
| VideoStream.RingSlice | ports/video/papp_io.c:664-674 | the two copies out of the ring are the resource at the position |
| VideoStream.Stream.constructor | ports/video/papp_io.c:691-755 | a stream opened with its first request is at position 0 with an empty ring, and what its connection will bring is the resource; its size is known only if the server gave it |
| VideoStream.Stream.Receive | ports/video/papp_io.c:88-108 | a receive moves bytes from the network to the buffer, in any portions, or loses the connection |
| VideoStream.Stream.FrameByte | ports/video/papp_io.c:537-591 | one byte of chunk framing is one step of the decoder |
| VideoStream.Stream.AwaitData | ports/video/papp_io.c:489-519 | receives and skips framing until body bytes are at hand, or tells why not; a body that still owes bytes ends early only by an event of the network |
| VideoStream.Stream.BodyRead | ports/video/papp_io.c:489-594 | delivers exactly the next bytes of the resource, whichever way they are coded, and nothing past a known end |
| VideoStream.Stream.RingStep | ports/video/papp_io.c:600-620 | one portion goes into the ring, around its end; the ring then holds the resource up to it and evicts only what is 4 MiB behind |
| VideoStream.Stream.RingFill | ports/video/papp_io.c:600-620 | fills the ring by at most what is wanted and evicts only what falls out of its 4 MiB |
| VideoStream.Stream.Begin | ports/video/papp_io.c:433-446 | a connection that starts with an answer's body delivers the resource from its offset |
| VideoStream.Stream.Accept | ports/video/papp_io.c:433-481 | how a status, a range start and a length are turned into a connection that is at the right offset, or a failure, and what each status makes of the size and of whether the stream can seek |
| VideoStream.Stream.Ask | ports/video/papp_io.c:323-485 | a request is one answer of the server, taken as its status says |
| VideoStream.Stream.HttpRequest | ports/video/papp_io.c:323-485 | a request leaves a connection from which the resource follows at its position, or failed; from a server that keeps to ranges it leaves a body with a byte at least before the end, and from the end on a closed one, with the offset for a size that was unknown |
| VideoStream.Stream.Resume | ports/video/papp_io.c:653-658 | an early end of a body is resumed where the ring ends, with one request, or the stream counts as lost; from a server that keeps to ranges it fails only when nobody answers |
| VideoStream.Stream.Further | ports/video/papp_io.c:651-660 | where a body ended early the rest is asked for, or the stream ends there; on a server that keeps to ranges a stream that can seek ends there only when nobody answers |
| VideoStream.Stream.Turn | ports/video/papp_io.c:648-667 | one turn of the loop: from a server that keeps to ranges, with the ring's end at or past the resource's end but before the stream's size, it asks once, goes on, and leaves ring, size, seekable and conn_eof as they were; any other turn that asks gets bytes to come, or makes up for a body the network ended early |
| VideoStream.Stream.AdvanceTo | ports/video/papp_io.c:648-667 | reads on, or asks again, until the ring holds the position or the resource ends: with at most a request for each byte of the resource and each event of the network, and two, unless the position is at or past the end but before the stream's size; then, with nothing left to receive, it asks as long as it is answered |
| VideoStream.Stream.Reposition | ports/video/papp_io.c:631-647 | asks at most once, and then starts the ring at the offset the server chose, which is the position for a server that keeps to ranges |
| VideoStream.Stream.CopyFromRing | ports/video/papp_io.c:664-674 | copies the resource at the position out of the ring |
| VideoStream.Stream.Read | ports/video/papp_io.c:622-678 | a successful read returns exactly the bytes of the resource at the position and moves it by as many; 0 comes only at the size the stream has, which below the resource's is one this very call gave up at or an earlier one did; on a server that keeps to ranges the requests are bounded, whatever the budget of answers, exactly unless the stream is seekable and \|res\| <= pos < size, and then they use up any budget; never so with a server that tells the size |
| VideoStream.AsksForEver | ports/video/papp_io.c:437-481 | a run of opening, seeking and reading in which a read uses up any budget of requests: the size overestimated by a 416 answer |
| VideoStream.Stream.Seek | ports/video/papp_io.c:770-787 | moves the position except to negative offsets, or before the ring on a stream that cannot seek |
| VideoStream.Stream.Prefetch | ports/video/papp_io.c:798-813 | never evicts the position or anything held within KEEP_BEHIND before it, and never moves the position |
| PacketQueue.SlotOfWord | ports/video/papp_player.c:87-116 | with a capacity that divides 2^32 the wrap of a counter does not change its cell |
| PacketQueue.NextKeepsInv | ports/video/papp_player.c:62-116 | every load or store of either side keeps the invariant |
| PacketQueue.RunKeepsInv | ports/video/papp_player.c:62-116 | so does every interleaving |
| PacketQueue.RefinesFifo | ports/video/papp_player.c:62-116 | in every interleaving each step is a step of a first-in first-out queue, and a refused push or pop was right about full or empty at its load |
| PacketQueue.ConsumerReadsWhole | ports/video/papp_player.c:102-116 | the consumer never copies a cell that is unwritten or being written |
| PacketQueue.BytesWaiting | ports/video/papp_player.c:84-116 | the byte counters never cross, and their 32-bit difference is the size queued whenever neither side is in the middle |
| FrameSlots.NextKeepsInv | ports/video/papp_player.c:118-161 | every load or store of the video and main tasks, and every seek, keeps the invariant of the slots |
| FrameSlots.RunKeepsInv | ports/video/papp_player.c:118-161 | so does every interleaving |
| FrameSlots.EachSlotOnce | ports/video/papp_player.c:756-778 | in every interleaving each slot has exactly one owner, no push into the index queues ever fails, and a ready slot holds the frame queued with it |
| FrameSlots.NoSharedSlot | ports/video/papp_player.c:1408-1458 | the main task never reads a slot that the video task is writing |
| SeekProtocol.NextKeepsInv | ports/video/papp_player.c:498-603 | every step of the demuxer, the decoders and the main task, each load of its own, with seeks that succeed or fail, keeps the invariant of the serials |
| SeekProtocol.RunKeepsInv | ports/video/papp_player.c:528-603 | so does every run with any number of seeks of either kind |
| SeekProtocol.DecodersFedRight | ports/video/papp_player.c:707-724 | in every run a decoder is fed only packets of the serial it was last flushed for |
| SeekProtocol.SerialsAscend | ports/video/papp_player.c:498-526 | serials in a queue never decrease, and a flush comes before the first packet of a new one |
| SeekProtocol.ClockIsCurrent | ports/video/papp_player.c:244-268 | clock_get reports valid only for a point set under the current serial |
| SeekProtocol.ClockFreshness | ports/video/papp_player.c:1408-1430 | whether a step leaves the clock with a time from before the last seek: exactly when the main task passes a serial it read after a seek with a picture checked before it |
| SeekProtocol.UndisturbedRunsAreFresh | ports/video/papp_player.c:1408-1430 | in a run without such a seek the clock never shows an old time |
| SeekProtocol.StaleClock | ports/video/papp_player.c:1408-1430 | a run, from the packet pushed and decoded to the clock set, in which it does |
| SeekEnd.NextKeepsEndInv | ports/video/papp_player.c:1503-1508 | every step, the five loads of the check for the end among them, keeps what the check has found so far true |
| SeekEnd.RunKeepsEndInv | ports/video/papp_player.c:1503-1508 | so does every run |
| SeekEnd.EndMeansDrained | ports/video/papp_player.c:1503-1508 | in every run, when the check comes out true for the serial n that it loaded, nothing of n waits in a queue, a decoder's hands or the pictures, or is about to be pushed, unless a seek failed under n after its end had been pushed; if n is still current, nothing waits at all |
| SeekEnd.EndIsCurrent | ports/video/papp_player.c:1503-1508 | a check that comes out true has found the end of the serial there was when it began, and that of the current serial exactly if no seek has succeeded since; then nothing waits, unless a seek failed behind that end |
| SeekEnd.OldEndFound | ports/video/papp_player.c:1503-1508 | a run without a failed seek in which a seek succeeds between the loads, and the end found is that of the old serial while a flush and a packet of the new one wait |
| SeekEnd.FailedSeekExact | ports/video/papp_player.c:498-513 | whether a failed seek can lead to the end of its serial, or of a later one, being found while something of it waits: exactly when the end of that serial had been pushed before it |
| SeekEnd.EndTooEarly | ports/video/papp_player.c:555-583 | a run with such a seek in which the check comes out true while an item of the current serial waits |
| PlayClock.Clock.Set | ports/video/papp_player.c:244-254 | the reading runs on from the point set |
| PlayClock.Clock.Pause | ports/video/papp_player.c:270-280 | the reading does not jump, exactly unless a running clock is told to run |
| PlayClock.Clock.Toggles | ports/video/papp_player.c:256-280 | over any pauses the reading moves by exactly the time not paused |
| HttpText.Find | ports/netsurf/papp_http.c:967-1051 | the first occurrence of a byte, as strchr |
| HttpText.TrimEnd | ports/netsurf/papp_http.c:998-1000 | a header line without its trailing blanks: everything cut is SPACE or TAB, and the rest does not end in one |
| HttpFeed.EatConcat | ports/netsurf/papp_http.c:1162-1187 | cutting a response anywhere makes no difference to what is read |
| HttpFeed.EatPiece | ports/netsurf/papp_http.c:1088-1116 | body bytes in one piece are as good as one at a time |
| HttpFeed.EatKeepsReading | ports/netsurf/papp_http.c:1088-1187 | while a body is being read there is something left of it |
| HttpFeed.EatGrows | ports/netsurf/papp_http.c:967-1051 | a byte passes on at most one header line or one byte of the body |
| HttpFeed.PoolsOnlyAtBlank | ports/netsurf/papp_http.c:910-965 | within the headers a fetch ends well only at the blank line |
| HttpFeed.Fetch.HeaderLine | ports/netsurf/papp_http.c:967-1051 | a line of the status or headers, read as one byte of the reference |
| HttpFeed.Fetch.ChunkBytes | ports/netsurf/papp_http.c:1106-1153 | the chunk loop reads what the reference reads |
| HttpFeed.Fetch.BodyBytes | ports/netsurf/papp_http.c:1088-1159 | the body reader reads what the reference reads; a kept connection has nothing left |
| HttpFeed.Fetch.Feed | ports/netsurf/papp_http.c:1162-1187 | a receive of any size is read as the reference reads its bytes |
| HttpFeed.Fetch.ReceiveAll | ports/netsurf/papp_http.c:1395-1417 | for every way of cutting a response into receives: the same header lines, body and outcome; and a connection goes back to the pool only when the response ended exactly with the last byte of a receive |
| HttpChunks.EatLine | ports/netsurf/papp_http.c:1117-1134 | a line of any length is kept up to MAX_LINE bytes |
| HttpChunks.SizeLine | ports/netsurf/papp_http.c:1131-1143 | a chunk size is read right exactly when it is below 2^32 and has at most MAX_LINE digits or is 0, and else too small |
| HttpChunks.EatCoding | ports/netsurf/papp_http.c:1106-1153 | every chunked coding whose sizes are understood is delivered as its body, and the response ends exactly with its last byte |
| HttpChunks.DataMissing | ports/netsurf/papp_http.c:1131-1144 | behind a chunk whose size is not understood some of its data has not been delivered, while papp_io.c has delivered all |
| HttpChunks.InStepExact | ports/netsurf/papp_http.c:1106-1153 | at every byte of a coding what this decoder has delivered is what papp_io.c's has, exactly when every size is understood |
| HttpChunks.PaddedSize | ports/netsurf/papp_http.c:1131-1147 | a coding with a padded size whose response ends well, at the right byte, without its body |
| HttpChunks.LuckyCoding | ports/netsurf/papp_http.c:1131-1147 | a coding with a size read wrong that comes out whole and ends right, although the decoders part within it |
| HttpChunks.EatHeaders | ports/netsurf/papp_http.c:967-1051 | header lines are passed on in order, cut at MAX_LINE and without trailing blanks |
| HttpChunks.ChunkedResponse | ports/netsurf/papp_http.c:1162-1187 | a whole chunked response: its header lines, its body, and a good end at its last byte, whatever follows |
| HttpChunks.DecodersAgree | ports/netsurf/papp_http.c:1106-1153 | this decoder and papp_io.c's deliver the same, byte by byte, exactly of the codings this one understands, and then both stop at the last byte |
| Connections.CloseFetchKeepsInv | ports/netsurf/papp_http.c:552-558 | closing a fetch's connection keeps every rule: its handle was open and its own |
| Connections.CloseSlotKeepsInv | ports/netsurf/papp_http.c:463-467 | so does closing a kept connection |
| Connections.GiveSlotKeepsInv | ports/netsurf/papp_http.c:485-505 | so does moving a connection into the pool |
| Connections.TakeSlotKeepsInv | ports/netsurf/papp_http.c:507-516 | so does taking one out, for the same server and never for a POST |
| Connections.OpenForKeepsInv | ports/netsurf/papp_http.c:398-410 | so does opening one, with at most TLS_MAX sessions |
| Connections.LastTripOk | ports/netsurf/papp_http.c:1371-1387 | the pieces sent one after the other on a connection are the beginning of the request: each byte once, in order |
| Connections.TravelKeepsInv | ports/netsurf/papp_http.c:1371-1393 | sending more of a request and hearing an answer keep every rule |
| Connections.StillUnheard | ports/netsurf/papp_http.c:1191-1204 | a kept connection that is given up for a new one has answered nothing, nor has any before it, and the request is no POST |
| Connections.RewindKeepsInv | ports/netsurf/papp_http.c:1191-1204 | and the fetch starts over as if it had not begun |
| Connections.SayKeepsInv | ports/netsurf/papp_http.c:563-573 | a message keeps every rule: nothing comes after a last one, or after NetSurf has aborted the fetch |
| Connections.SettleKeepsInv | ports/netsurf/papp_http.c:576-615 | a fetch leaves its end dead |
| Connections.AddKeepsInv | ports/netsurf/papp_http.c:1443-1482 | a new fetch keeps every rule |
| Connections.RemoveKeepsInv | ports/netsurf/papp_http.c:1513-1532 | a freed fetch leaves nothing open |
| Connections.HeldAreOpen | ports/netsurf/papp_http.c:398-531 | the open handles are exactly those held by a fetch or kept |
| Connections.Holder | ports/netsurf/papp_http.c:398-531 | each open handle has exactly one holder |
| Connections.AllCounted | ports/netsurf/papp_http.c:463-558 | every connection ever opened was closed at most once, and those not closed are open |
| Connections.RulesHold | ports/netsurf/papp_http.c:398-531 | all rules of a run: one holder for each handle, s_tls_open their number of TLS handles and at most TLS_MAX, closed once, one last message and none once NetSurf has aborted the fetch, a POST sent once, a GET again only unheard |
| Fetcher.CleanEnd | ports/netsurf/papp_http.c:1117-1156 | a response that ends well with nothing left over ends with the last piece of its receive |
| Fetcher.PieceFacts | ports/netsurf/papp_http.c:1088-1128 | a piece of the body, or a byte of anything else, passes on at most itself or one header line and leaves something to be read, or the end |
| Fetcher.EndsReceive | ports/netsurf/papp_http.c:1088-1128 | a response that ends with the last piece of a receive ends with its last byte |
| Fetcher.ToldGrown | ports/netsurf/papp_http.c:646-655 | telling the header line or piece of the body by which a response grows keeps what was told in step with it |
| Fetcher.Fetcher.Setup | ports/netsurf/papp_http.c:1443-1482 | a fetch starts with nothing sent, heard or held |
| Fetcher.Fetcher.Start | ports/netsurf/papp_http.c:1484-1489 | marks one fetch started and changes nothing else |
| Fetcher.Fetcher.React | ports/netsurf/papp_http.c:563-573 | anything NetSurf does in a callback leaves the calling fetch as it was, but for marks |
| Fetcher.Fetcher.CloseConn | ports/netsurf/papp_http.c:552-558 | a connection is closed once and forgotten |
| Fetcher.Fetcher.KeepClose | ports/netsurf/papp_http.c:463-467 | a kept connection is closed and its slot free |
| Fetcher.Fetcher.DropKeptTls | ports/netsurf/papp_http.c:470-483 | a kept TLS connection is given up exactly when there is one |
| Fetcher.Fetcher.PickSlot | ports/netsurf/papp_http.c:485-498 | the slot for a connection to be kept is free, or none is free and it holds the oldest |
| Fetcher.Fetcher.KeepPut | ports/netsurf/papp_http.c:485-505 | the connection is kept for its server and stays open |
| Fetcher.Fetcher.KeepTake | ports/netsurf/papp_http.c:507-516 | a kept connection to the same server is taken exactly when there is one |
| Fetcher.Fetcher.KeepCheck | ports/netsurf/papp_http.c:520-531 | stale kept connections are closed |
| Fetcher.Fetcher.Open | ports/netsurf/papp_http.c:363-410 | busy only when TLS_MAX sessions are open and none is kept; otherwise a new connection or a refusal |
| Fetcher.Fetcher.SendMsg | ports/netsurf/papp_http.c:563-573 | a message is sent, and the fetch is dead exactly when NetSurf aborted it meanwhile |
| Fetcher.Fetcher.FinishWith | ports/netsurf/papp_http.c:576-615 | the connection is closed, the last message sent, and the fetch dead |
| Fetcher.Fetcher.Complete | ports/netsurf/papp_http.c:896-906 | a finished fetch's connection stays open exactly when it is clean |
| Fetcher.Fetcher.RetryFresh | ports/netsurf/papp_http.c:1191-1204 | a request is begun again exactly when its connection was a kept one and nothing came back |
| Fetcher.Fetcher.ClosedByServer | ports/netsurf/papp_http.c:1206-1223 | the end of a connection begins again exactly after a kept one that never answered, else ends the body, else fails; the connection is closed |
| Fetcher.Fetcher.Hear | ports/netsurf/papp_http.c:1162-1166 | hearing an answer marks the fetch and its trip |
| Fetcher.Fetcher.Feed | ports/netsurf/papp_http.c:1162-1187 | what a receive brought is told to NetSurf, in the pieces the code takes it in, as the reference reads it, with its outcome, unless NetSurf aborts; the connection stays open only when nothing is left over |
| Fetcher.Fetcher.EndBody | ports/netsurf/papp_http.c:1211-1217 | the end of a connection that ends a body: the fetch has finished and the connection is not kept |
| Fetcher.Fetcher.StepResolve | ports/netsurf/papp_http.c:1243-1312 | goes on with a kept connection, never for a POST or through a proxy, or with an address; fails as each answer has it |
| Fetcher.Fetcher.StepLookup | ports/netsurf/papp_http.c:1268-1309 | what each answer of the lookup leads to |
| Fetcher.Fetcher.StepConnect | ports/netsurf/papp_http.c:1318-1350 | goes on only with a new connection; without one it waits, unchanged, until it is late |
| Fetcher.Fetcher.StepConnecting | ports/netsurf/papp_http.c:1352-1369 | connected, failed, late, or unchanged, as the transport says |
| Fetcher.Fetcher.Lost | ports/netsurf/papp_http.c:1371-1408 | a lost connection begins the request again exactly when it was a kept one that never answered |
| Fetcher.Fetcher.StepSend | ports/netsurf/papp_http.c:1371-1393 | goes on only when the whole request was sent; otherwise again, failed, late, or part of it still to send |
| Fetcher.Fetcher.SendTo | ports/netsurf/papp_http.c:1371-1387 | the next bytes of the request go out behind those sent on this connection before, and together they are its beginning |
| Fetcher.Fetcher.Tell | ports/netsurf/papp_http.c:633-655 | a message goes out, and the fetch is otherwise as it was unless NetSurf aborted it |
| Fetcher.Fetcher.Record | ports/netsurf/papp_http.c:1088-1187 | the response after a piece; at its end the last message is its outcome |
| Fetcher.Fetcher.Take | ports/netsurf/papp_http.c:1088-1187 | one piece of a response, told and recorded |
| Fetcher.Fetcher.StepReceive | ports/netsurf/papp_http.c:1395-1420 | receives until nothing is there: over, again, or still receiving and not late |
| Fetcher.Fetcher.Step | ports/netsurf/papp_http.c:1237-1421 | one step of a fetch keeps every rule; a link handed over ends at once |
| Fetcher.Fetcher.Free | ports/netsurf/papp_http.c:1491-1532 | a freed fetch is gone from the list |
| Fetcher.Fetcher.Abort | ports/netsurf/papp_http.c:1498-1511 | frees the fetch at once, or marks it when a poll or its own callback is under way |
| Fetcher.Fetcher.Poll | ports/netsurf/papp_http.c:1534-1572 | a poll keeps every rule and leaves no dead or aborted fetch |
| Fetcher.Fetcher.Run | ports/netsurf/papp_http.c:1498-1572 | so does any run of setups, starts, aborts and polls, over all that the network, the loader and NetSurf may do |
| Dns.WorkerKeepsInv | ports/netsurf/papp_http.c:227-251 | every load or store of the lookup worker keeps the invariant |
| Dns.FetcherKeepsInv | ports/netsurf/papp_http.c:299-357 | so does every load or store of the fetcher |
| Dns.RunKeepsInv | ports/netsurf/papp_http.c:206-251 | so does every interleaving |
| Dns.ResultsReachTheirFetch | ports/netsurf/papp_http.c:339-349 | in every interleaving a result goes, at most once, to the fetch that queued the lookup, and is the answer to that queueing for the whole name asked |
| Dns.NotReusedUntilDone | ports/netsurf/papp_http.c:311-336 | a slot, abandoned or not, goes to nobody else before its lookup is done |
| Dns.OneWaiter | ports/netsurf/papp_http.c:1268-1309 | two fetches never wait for one slot, and nobody for an abandoned one |
| Dns.AfterReap | ports/netsurf/papp_http.c:299-308 | after a reap the slots both abandoned and done are exactly the abandoned ones whose lookup ended behind it |
| Dns.ReapMissesOne | ports/netsurf/papp_http.c:299-308 | a run with such a slot |
| Iconv.DecodeEncoded | ports/netsurf/papp_iconv.c:100-295 | decoding a character's bytes gives it back, whatever follows, in every encoding that has it |
| Iconv.EncodeDecoded | ports/netsurf/papp_iconv.c:100-295 | a value is only ever decoded from its own bytes, and outside UTF-32 it is a scalar value: no overlong, surrogate or out-of-range form is accepted there (section 3 of RFC 3629, section 2 of RFC 2781) |
| Iconv.HighUnique | ports/netsurf/papp_iconv.c:25-30 | no character is in the Windows-1252 table twice |
| Iconv.DecodeMore | ports/netsurf/papp_iconv.c:100-186 | a sequence that is complete or invalid stays so, whatever follows |
| Iconv.RoomEnough | ports/netsurf/papp_iconv.c:297-356 | four bytes of room for each byte of input are ample |
| Iconv.ResumeRoom | ports/netsurf/papp_iconv.c:333-350 | resuming after E2BIG gives what one call with room would have given |
| Iconv.ResumeInput | ports/netsurf/papp_iconv.c:313-320 | so does resuming after EINVAL with more input |
| Iconv.Resumed | ports/netsurf/papp_iconv.c:297-356 | so does any sequence of calls, with the input and the room dealt out in any way |
| Iconv.ConvertText | ports/netsurf/papp_iconv.c:297-356 | a text that both encodings have is converted completely and exactly |
| Iconv.UnicodeEncodes | ports/netsurf/papp_iconv.c:190-295 | UTF-8, UTF-16 and UTF-32 have every text |
| Iconv.RoundTrip | ports/netsurf/papp_iconv.c:297-356 | there and back again gives the original bytes |
| Iconv.OnlyText | ports/netsurf/papp_iconv.c:297-356 | without //TRANSLIT nothing but such a text converts without an error |
| Iconv.DecodeUtf8Loop | ports/netsurf/papp_iconv.c:150-184 | stops as incomplete only when all bytes there are fit, as invalid at the first that does not, and otherwise with the value |
| Iconv.FindHigh | ports/netsurf/papp_iconv.c:211-230 | the table search finds the byte of a Windows-1252 character |
| Iconv.PutUtf16 | ports/netsurf/papp_iconv.c:231-251 | writes the unit or surrogate pair of the character in the encoding's byte order, or nothing without room |
| Iconv.PutUtf32 | ports/netsurf/papp_iconv.c:252-261 | writes the four bytes of the character in the encoding's order, or nothing without room |
| Iconv.PutUtf8 | ports/netsurf/papp_iconv.c:262-294 | writes the one to four bytes of the character, or nothing without room |
| Iconv.EncodeOne | ports/netsurf/papp_iconv.c:190-295 | writes a character's bytes and nothing else |
| Iconv.ConvertOne | ports/netsurf/papp_iconv.c:313-350 | one character: its status, or its bytes taken and written, with a question mark for what cannot be converted |
| Iconv.ConvertInto | ports/netsurf/papp_iconv.c:297-356 | what is used of the input, written to the output and returned is the conversion, for any room; bytes outside are not touched |
| Heap.AndNotBounds | ports/video/papp_syscalls.c:113-113 | clearing the bits of a mask takes away the mask at most |
| Heap.MaskRounds | ports/video/papp_syscalls.c:113-113 | x & ~(align - 1), bit by bit, is x - x % align for every power of two |
| Heap.Inside | ports/video/papp_syscalls.c:101-113 | header and payload lie inside the raw block, and the payload is aligned to any power of two |
| Heap.BypassedIsLinked | ports/video/papp_syscalls.c:129-154 | a list whose neighbours point past a block is the list without it |
| Heap.PlacedLess | ports/video/papp_syscalls.c:129-154 | the other blocks keep their raw blocks |
| Heap.NoOverlap | ports/video/papp_syscalls.c:84-127 | no two live blocks overlap, headers included |
| Heap.Heap.PushFront | ports/video/papp_syscalls.c:114-126 | the doubly linked list gets a new first block and stays well-formed |
| Heap.Heap.Alloc | ports/video/papp_syscalls.c:101-127 | a block of that size and alignment lives at the new address, whatever the address stood for before, or nothing changes |
| Heap.Heap.Unlink | ports/video/papp_syscalls.c:140-152 | the doubly linked list loses exactly that block and stays well-formed |
| Heap.Heap.Free | ports/video/papp_syscalls.c:129-154 | the block that lives at this address now, be it another than at first, leaves the list, and its raw block goes back; null, and an address where none lives any more and whose memory the heap has not got again, change nothing but a count: so a second free is only counted |
| Heap.Heap.Realloc | ports/video/papp_syscalls.c:156-179 | of the block that lives at this address now: a bigger one replaces it in the list, aligned and with its bytes, and the others stay; one that is big enough stays; size 0 frees; a refusal changes nothing, nor does an address where none lives any more and whose memory the heap has not got again |
| Heap.Heap.FreeAll | ports/video/papp_syscalls.c:186-201 | every raw block goes back exactly once, and the list is empty |
| Sound.Sample | ports/redalert/papp_sound.cpp:70-78 | a sample of 8 or 16 bits lies in the 16-bit range |
| Sound.LevelFits | ports/redalert/papp_sound.cpp:95-96 | sample times volume stays a 32-bit int |
| Sound.FedAt | ports/redalert/papp_sound.cpp:80-105 | a chunk's frames are where the chunks before it end |
| Sound.PlacedNext | ports/redalert/papp_sound.cpp:93-99 | one more output frame moves the position by one step |
| Sound.PlacedAhead | ports/redalert/papp_sound.cpp:100-103 | at the end of a chunk the position goes on into the next, and never below its start |
| Sound.PosFits | ports/redalert/papp_sound.cpp:93-99 | the position never passes its 32 bits |
| Sound.SourceHere | ports/redalert/papp_sound.cpp:80-105 | the next frame mixed is source frame floor(k * step / 65536) |
| Sound.SlotsDiffer | ports/redalert/papp_sound.cpp:304-319 | the slot at tail is not a queued one |
| Sound.WrappedSlots | ports/redalert/papp_sound.cpp:36-45 | with wrapped counters it would be one exactly when neighbours lie on either side of the wrap, as 3 does not divide 2^32 |
| Sound.WrapOverwrites | ports/redalert/papp_sound.cpp:308-315 | the chunk just before the wrap is overwritten by the next |
| Sound.Voice.FreeCount | ports/redalert/papp_sound.cpp:296-302 | how many chunks can be queued, and that a slot seen free stays so until it is filled |
| Sound.Voice.CopyIn | ports/redalert/papp_sound.cpp:310-312 | the length and the bytes go one by one into the slot at tail, and stay there while the mixer plays |
| Sound.Voice.Fill | ports/redalert/papp_sound.cpp:308-315 | the stores into the slot, the mixer at work between any two, leave it whole, and none of the queued ones touched |
| Sound.Voice.Publish | ports/redalert/papp_sound.cpp:316-319 | the chunk written joins the queue as its last, whatever was mixed meanwhile |
| Sound.Voice.Buffer | ports/redalert/papp_sound.cpp:304-319 | a chunk is queued whole, whatever the mixer does meanwhile, or not at all when there is no slot |
| Sound.Voice.MixChunk | ports/redalert/papp_sound.cpp:93-99 | frames mixed from the head chunk are the next ones of the sound, and end only with the block or the chunk |
| Sound.Voice.MixVoice | ports/redalert/papp_sound.cpp:80-105 | for chunks of one rate the k-th frame mixed is source frame floor(k * step / 65536) of all that was queued, over every cut into chunks and blocks; it stops early only when all has been played |
| Sound.Voice.Start | ports/redalert/papp_sound.cpp:321-326 | a voice plays exactly when something is queued |
| Sound.Voice.Stop | ports/redalert/papp_sound.cpp:328-335 | a stopped voice has nothing queued and starts the next sound at its first frame |
| Png.UnfilterFiltered | ports/netsurf/gen_netsurf.py:359-384 | taking off any filter type gives the row back (sections 9.2 to 9.4 of the PNG specification) |
| Png.FilterUnfiltered | ports/netsurf/gen_netsurf.py:359-384 | and every line is the filtered form of what is left |
| Png.UnfilterRow | ports/netsurf/gen_netsurf.py:367-383 | overwriting a row from the left leaves exactly the row whose filtered form it held |
| Png.DecodeStored | ports/netsurf/gen_netsurf.py:359-384 | every image with any filter for each row comes back from its stored form |
| Png.StoreDecoded | ports/netsurf/gen_netsurf.py:359-384 | and stored bytes are read as the only image of which they are the stored form |
| Png.ReadRows | ports/netsurf/gen_netsurf.py:359-384 | the rows read are those the stored bytes are the filtered form of |
| Png.SamplePacked | ports/netsurf/gen_netsurf.py:390-396 | shift and mask recover each sample of a byte |
| Png.PackedBytes | ports/netsurf/gen_netsurf.py:385-396 | what is packed is bytes |
| Png.UnpackPacked | ports/netsurf/gen_netsurf.py:385-396 | every row of 1-, 2-, 4- or 8-bit samples comes back from its packed form |
| Png.Samples | ports/netsurf/gen_netsurf.py:385-396 | the loops return every sample of every byte, high bits first; of 16-bit samples the high bytes |

## Left out

- The loader's services, FFmpeg, FreeType, zlib's inflate, NetSurf, MicroPython, LVGL and ESPHome: foreign code, taken as any behaviour within its contract.
- The literal tables of `crc32.h` and `inffixed.h`: the tables are those that `make_crc_table` defines.
- Bodies with a Content-Encoding, `Set-Cookie`, `Date` and the page remembered for the hand-off in `papp_http.c`: `deliver` is modelled without gzip.
- The text of requests and messages, URL parsing, redirects and transport set-up of `papp_io.c` and `papp_http.c`: an answer of the server stands for the whole exchange up to it, and an error message for its cause.
- Clocks and time-outs: a deadline may or may not have passed at every point where the code looks.
- Out-of-memory returns, except where the loader refuses a block of the player's heap.
- `papp_http_shutdown`, task deletion and `papp_stream_close`: runs end before them.
- The head and tail counters of the five-cell index queues in `papp_player.c` are unbounded; those of the packet queues wrap at 2^32.
- The records of `papp_http.c`'s fetches are values in a map from their number instead of linked heap records, and `s_keep` a sequence of four: aliasing between them is not modelled.
- Fetcher.Fetcher.Poll: NetSurf sets up only finitely many fetches, so that a poll whose list grows under it ends.
- VideoStream.Stream.Read: local files are not modelled; the abort flag is up or down whenever the code looks, or down all along; the server answers a number of requests and then no more, and what is claimed holds for any number.
- HttpFeed.Fetch.Feed: the flag for left-over bytes is set by blank lines of interim responses too, so that only keeping a connection, never what is read, can depend on how a response is cut.
- SeekProtocol.RunKeepsInv: queues are first-in first-out there, as PacketQueue proves, and of any length; a full queue only delays. What a decoder makes of an item is left open, but for the marks of the end and the pictures.
- SeekEnd.EndMeansDrained: claimed of each check that comes out true; the pause flag and the time since the first such check, after which the main task returns, are not modelled.
- Dns.RunKeepsInv: the worker's stop flag and the cache of addresses are not modelled; a host name is written and read in two steps.
- Iconv.RoundTrip: texts of scalar values only, as UTF-32 input with surrogates is accepted by `decode`; the parsing of encoding names is left out.
- Iconv.Resumed: the count of irreversible conversions is not compared, as a call that fails does not return it.
- Heap.Heap.Alloc: alignments are powers of two, as the contract of posix_memalign has it; a raw block is any stretch of addresses apart from those given out.
- Heap.Heap.Free: of an address where no block lives, and where none ever did or the heap has got the memory again, nothing is claimed if the bytes before it read as the magic number; memory given back is taken to keep its header until it is handed out again.
- Heap.Heap.Realloc: one thread; the lock makes the list operations atomic in the code.
- Sound.Voice.MixVoice: an output rate above 1 Hz, and chunk counters that do not wrap; for chunks of different rates only the bounds are claimed. Clipping, pacing and the eight voices' sum are not modelled.
- Png.ReadRows: header fields, palettes and the composition of pixels are left out, and the data is long enough for the rows it announces (the script stops with an error otherwise).
- The read-ahead of the Red Alert and OpenLara file layers, drawing, overlays, input, and the build, catalogue and bridge scripts.
