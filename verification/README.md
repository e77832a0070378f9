# An acquisition server and its serializer, in Dafny

The program is the firmware of an FPGA board with a network port. A client sends 16-byte commands over a
stream socket; the server captures samples from an ADC or from a digital down-converter (DDC) into memory by
DMA and returns them in packets. Everything on the wire goes through a small format-string serializer.

Two cores are modelled, and joined where they meet on the wire.

**The serializer** (`pack/pack.c`). `pack` and `unpack` are loops that move a cursor through an array
(`PackLoops`), proved against a pure encoder and decoder (`Codec`, `Formats`). The float encodings
`pack754` and `unpack754` are loops over exact reals (`FloatLoops`), proved against `Float754.Encode` and
`Float754.Decode`; what the encodings guarantee is in `Float754` and `FloatTheorems`.

**The acquisition protocol** (`low_level_op.c`, `server.c`, `connection_server.c`). The capture handlers are
objects with a position, a count and a memory region (`LowLevel`). A capture only starts the DMA engine; the bytes
of its transfer land one after the other, at a pace the model leaves open, until a later request finds the engine
idle. `handle_request` works on two handlers that all connections share (`Requests`, `Server`). It answers
through a pointer: a transfer leaves the pointer of the response packet in the DMA buffer, later texts and register
values are stored through it, and a payload is read through it only when the packet is sent. A soft register is
whatever address the client names, in a DMA buffer too. Packets travel over a socket that fragments as it likes
(`Wire`, `Connection`).

There are two views of a run. `Server.Session` is one whole connection: before each of its calls, and between a
call and the copying of its payload, any number of whole calls of other connections may happen, and the DMA
engine, the registers and the network behave as an arbitrary oracle says. `Sharing.System` is any number of
connections, each with its own response packet, that handle commands and copy payloads in any order while the
engines work. `Delivery`, `Overshoot`, `Runs` and `Pairs` hold what one client can rely on, `Tracing`,
`Conservation` and `Untouched` what happens to the samples.

| file | contents |
|---|---|
| `Words`, `Bits`, `Common` | bytes, 32-bit wrap-around, big-endian layout, bitwise OR; packet sizes and codes |
| `Float754`, `FloatTheorems`, `FloatStored`, `FloatLoops` | float encodings: bijection, error bound, order, the standard; what is stored for every real; the C loops |
| `Codec`, `Formats`, `FloatFormats`, `PackLoops` | one field; whole formats and exactly when they round-trip; the float letters against the standard; the C loops |
| `LowLevel` | `capture_samples`, `get_samples` and the handler object |
| `Wire`, `Connection` | packets and how a peer parses them; `sendall`, `recvall` and the packet functions |
| `Requests`, `Server` | `handle_request`; `process_client_request` with interference |
| `Protocol` | every command with the numbers of the protocol written out |
| `Delivery`, `Overshoot`, `Runs`, `Amounts`, `Pairs` | single transfers, their overshoot, whole connections, the same in bytes, runs of captures and transfers |
| `Tracing`, `Sharing`, `Conservation`, `Untouched` | what each byte of memory is; many connections; which samples reach the clients |

## What the code does, where its comments say otherwise

* The comments call the float format IEEE 754. The value is the standard's only for positive zero and normal
  encodings (`FloatTheorems.AgreesWithStandard`): subnormals, negative zero, infinities and NaNs are all read
  as further normal numbers.
* A significand that is scaled up to 2^s is OR-ed into the exponent field, not added. With an odd exponent
  field the carry is lost and the value is nearly halved (`FloatTheorems.ErrorBound`,
  `FloatTheorems.CarryExample`). The `+ 0.5f` behind it is a single-precision sum and vanishes for 23 and 52
  significand bits (`FloatTheorems.HalfRounds`), so only the 16-bit encoding is affected
  (`FloatTheorems.NoCarryWithoutHalf`).
* `unpack` does not advance past a negative `c`, so the next field reads the same byte again
  (`Formats.RoundTripExactly`, `Formats.NegativeExample`).
* A bound of N on a string keeps N characters when the string has exactly N, but N - 1 when it is longer
  (`Formats.BoundedString`).
* `get_samples` answers a request that fits entirely in what is left with one sample. A transfer can send more
  than was asked for (`Overshoot.ExactlyWhen` says exactly when it does not).
* A response packet's buffer pointer stays in the DMA buffer after a transfer, and later answers are printed there,
  over samples that may not have been sent yet (`Conservation.StruckExample`), unless they land only afterwards
  (`Runs.PairArrives`). Samples can also be captured over between `handle_request` and the copying of the payload
  (`Conservation.ForeignCapture`). `Conservation.DeliversExactly` says for every run exactly when the captured
  samples are what the clients get, `Untouched.LeftAloneDelivers` what connections must keep from, and
  `Pairs.RunsArriveExactly` which lists of commands are safe for one client.
* The reply to a capture is read back from memory when it is sent. Samples that land over it can replace it, even
  its terminator (`Runs.CaptureServe`).
* A refused transfer still counts its samples, and the next request hands out what lay in memory before
  (`LowLevel.AcceptedExactly`). A capture of no samples is allowed by its message and always refused
  (`Requests.FailsExactly`).
* `error` is never cleared: after one error response a connection reads on but answers nothing
  (`Runs.SessionShape`).

## Model

| member | source | states |
|---|---|---|
| Words.BigEndianValue | sw/fmc150_acquisition_lwip_0/src/pack/pack.c:82-108 | reading back the n bytes written for any integer gives it modulo 2^(8n) |
| Words.BigEndianBytes | sw/fmc150_acquisition_lwip_0/src/pack/pack.c:110-197 | and writing what was read, in any representative, gives back the same bytes |
| Words.BigEndianAt | sw/fmc150_acquisition_lwip_0/src/pack/pack.c:82-108 | byte i of n is the (n-1-i)-th digit to base 256, the most significant first |
| Bits.OrDisjoint | sw/fmc150_acquisition_lwip_0/src/pack/pack.c:50 | OR of fields that do not overlap is addition |
| Bits.OrCarry | sw/fmc150_acquisition_lwip_0/src/pack/pack.c:50 | a field of exactly 2^s is carried into the next field only if that field's lowest bit is clear |
| Bits.OrSplit | sw/fmc150_acquisition_lwip_0/src/pack/pack.c:50 | OR works on high and low fields separately |
| Float754.ExponentUnique | sw/fmc150_acquisition_lwip_0/src/pack/pack.c:37-40 | only one power of two places a positive real in [2^k, 2^(k+1)) |
| Float754.NormalUnique | sw/fmc150_acquisition_lwip_0/src/pack/pack.c:37-40 | the pair of mantissa in [1, 2) and exponent is unique |
| Float754.SignificandRange | sw/fmc150_acquisition_lwip_0/src/pack/pack.c:44 | the truncated significand lies in 0..2^s, both ends included |
| Float754.Assemble | sw/fmc150_acquisition_lwip_0/src/pack/pack.c:50 | the two ORs put sign, exponent and significand side by side; a significand of 2^s bumps an even exponent and vanishes in an odd one |
| Float754.PatternFields | sw/fmc150_acquisition_lwip_0/src/pack/pack.c:66-77 | the masks and shifts of the decoder read back exactly the three fields of a pattern |
| Float754.FieldsPattern | sw/fmc150_acquisition_lwip_0/src/pack/pack.c:66-77 | every word of the right width is such a pattern |
| Float754.EncodeMagnitude | sw/fmc150_acquisition_lwip_0/src/pack/pack.c:24-51 | packing (1 + m/2^s) * 2^k with an in-range exponent field yields the pattern of its fields, whatever the rounding half |
| Float754.EncodeDecode | sw/fmc150_acquisition_lwip_0/src/pack/pack.c:24-80 | for all widths, pack754(unpack754(i)) == i for every bit pattern i, sign-only and all-ones exponents included |
| Float754.DecodeRepresentable | sw/fmc150_acquisition_lwip_0/src/pack/pack.c:56-80 | everything unpack754 returns is one of the representable reals |
| Float754.DecodeStored | sw/fmc150_acquisition_lwip_0/src/pack/pack.c:24-80 | a real comes back unchanged if and only if it is zero or normal with s fraction bits and an in-range exponent (not +2^-bias) |
| FloatTheorems.ErrorBound | sw/fmc150_acquisition_lwip_0/src/pack/pack.c:33-50 | over the whole exponent range the decoded value keeps the sign and is less than one unit in the last place off, if and only if f does not fall on the pattern of zero and, where there are significand bits, no carry meets an odd exponent field |
| FloatTheorems.DecodedMagnitude | sw/fmc150_acquisition_lwip_0/src/pack/pack.c:24-80 | the value that comes back for every in-range real |
| FloatStored.StoredExactly | sw/fmc150_acquisition_lwip_0/src/pack/pack.c:24-51 | the stored bits of every nonzero real, in or out of range: the scaled fraction v rounded up exactly when its rest is at least 1 - t*h, t being the mantissa less 1; the biased exponent modulo 2^e, its lowest bit set by a carry; and the sign bit, also set by what of the exponent lies above its field |
| FloatStored.RoundedExample | sw/fmc150_acquisition_lwip_0/src/pack/pack.c:44 | 1 + 3687/4096 is stored in 16 bits as 0x3F9A, its fraction 921.75 rounded up to 922 |
| FloatTheorems.ZeroStored | sw/fmc150_acquisition_lwip_0/src/pack/pack.c:24-80 | the in-range reals whose fields are all zero come back as zero |
| FloatTheorems.CarryExample | sw/fmc150_acquisition_lwip_0/src/pack/pack.c:44-50 | 1.9999 packs, in 16 bits, to the pattern of 1 |
| FloatTheorems.HalfRounds | sw/fmc150_acquisition_lwip_0/src/pack/pack.c:44 | FloatHalf is what remains of 2^s + 0.5 in single precision: 24-bit significand, nearest, ties to even |
| FloatTheorems.NoCarryWithoutHalf | sw/fmc150_acquisition_lwip_0/src/pack/pack.c:44-50 | without the half no carry is ever dropped |
| FloatTheorems.DecodeOrder | sw/fmc150_acquisition_lwip_0/src/pack/pack.c:56-80 | unpack754 is strictly increasing on patterns without the sign bit and strictly decreasing on those with it |
| FloatTheorems.AgreesWithStandard | sw/fmc150_acquisition_lwip_0/src/pack/pack.c:21-80 | unpack754 returns the value of section 3.4 of IEEE 754-2008 if and only if the encoding is positive zero or normal |
| FloatTheorems.NegativeZero | sw/fmc150_acquisition_lwip_0/src/pack/pack.c:56-80 | for every width, negative zero of the standard is read as -2^-bias |
| FloatLoops.Normalise | sw/fmc150_acquisition_lwip_0/src/pack/pack.c:37-40 | the two loops end for every nonzero real, with the unique normal form |
| FloatLoops.Pack754 | sw/fmc150_acquisition_lwip_0/src/pack/pack.c:24-51 | the loop computes Encode, for every rounding half in [0, 1/2] |
| FloatLoops.Unpack754 | sw/fmc150_acquisition_lwip_0/src/pack/pack.c:56-80 | the loop computes Decode |
| Codec.SignedRoundTrip | sw/fmc150_acquisition_lwip_0/src/pack/pack.c:110-182 | signed integers of 8 to 64 bits survive the big-endian layout |
| Codec.DecodeEncodeField | sw/fmc150_acquisition_lwip_0/src/pack/pack.c:243-335 | a field that fits reads back as itself, clipped to its bound, and the cursor moves past it except for a negative `c` |
| Codec.EncodeDecodeField | sw/fmc150_acquisition_lwip_0/src/pack/pack.c:382-467 | whatever bytes a field is read from, its value fits and would be packed as those bytes |
| Codec.DocumentedTable | sw/fmc150_acquisition_lwip_0/src/pack/pack.c:199-211 | width and exact integer range of every format letter are those of the documented table |
| FloatFormats.FloatLetters | sw/fmc150_acquisition_lwip_0/src/pack/pack.c:13-19 | `f`, `d` and `g` are the formats of the standard with 5, 8 and 11 exponent bits in 2, 4 and 8 bytes: every normal datum and positive zero are unpacked to their value, and the value is packed to that datum |
| Formats.RoundTrip | sw/fmc150_acquisition_lwip_0/src/pack/pack.c:213-473 | unpack after pack returns the arguments for every format over all letters, bounds included, with a negative `c` only as last field, whatever bytes follow |
| Formats.RoundTripExactly | sw/fmc150_acquisition_lwip_0/src/pack/pack.c:213-473 | the arguments come back if and only if all fit, no string is longer than its bound, and whatever is packed after a negative `c` repeats its byte; bounds may stand anywhere before the first negative `c` |
| Formats.LagExactly | sw/fmc150_acquisition_lwip_0/src/pack/pack.c:384-388 | for a reader that is any number of bytes behind, without bounds: the arguments come back if and only if all fit and every packed byte repeats the one it is behind by |
| Formats.NegativeExample | sw/fmc150_acquisition_lwip_0/src/pack/pack.c:384-388 | -1 and 0 packed with `cC` come back as -1 and 255 |
| Formats.DigitRun | sw/fmc150_acquisition_lwip_0/src/pack/pack.c:463-469 | digits in a format are invisible to pack and only set the bound for unpack |
| Formats.BoundedString | sw/fmc150_acquisition_lwip_0/src/pack/pack.c:452-469 | a bound cuts its string to all of it or its first N - 1 bytes, and no later field depends on it |
| Formats.BoundValue | sw/fmc150_acquisition_lwip_0/src/pack/pack.c:463-466 | the bound is the number written, modulo 2^32 |
| Formats.BoundCleared | sw/fmc150_acquisition_lwip_0/src/pack/pack.c:463-469 | a character that is neither digit nor letter takes nothing and ends a bound |
| Formats.DecimalBound | sw/fmc150_acquisition_lwip_0/src/connection_server.c:60 | the digits `%d` prints set the bound to the printed number |
| PackLoops.PackI64 | sw/fmc150_acquisition_lwip_0/src/pack/pack.c:99-108 | stores the eight bytes, touches nothing else |
| PackLoops.PackField | sw/fmc150_acquisition_lwip_0/src/pack/pack.c:243-335 | one field is written at the cursor and nothing else changes; returns its size |
| PackLoops.Pack | sw/fmc150_acquisition_lwip_0/src/pack/pack.c:213-340 | writes exactly the encoding at the start position, leaves every other byte alone, returns the cursor displacement |
| PackLoops.UnpackField | sw/fmc150_acquisition_lwip_0/src/pack/pack.c:382-467 | one field read at the cursor, and how far the cursor moves |
| PackLoops.Unpack | sw/fmc150_acquisition_lwip_0/src/pack/pack.c:356-473 | returns the decoded values, whenever no read leaves the buffer |
| LowLevel.CaptureKeeps | sw/fmc150_acquisition_lwip_0/src/low_level_op.c:165-214 | an admissible capture: exact transfer length up to 0x7FFFFF; accepted exactly when the engine is free and the count is not zero, and then the count sits below control bit 21, the transfer before is complete, and nothing of the new one is in memory yet |
| LowLevel.CaptureLands | sw/fmc150_acquisition_lwip_0/src/low_level_op.c:196-201 | once it is through, an accepted transfer has replaced the start of the region and nothing else, a refused one nothing |
| LowLevel.LandAbsorb | sw/fmc150_acquisition_lwip_0/src/low_level_op.c:271-281 | when the engine is found idle, it does not matter how far it was before |
| LowLevel.NothingWraps | sw/fmc150_acquisition_lwip_0/src/low_level_op.c:250-269 | neither the unsigned sum nor the signed difference overflows: get_samples equals its reading over unbounded integers |
| LowLevel.GetKeepsExactly | sw/fmc150_acquisition_lwip_0/src/low_level_op.c:217-304 | a call keeps position, count and tiling valid if and only if it is not a request for nothing on a drained handler that succeeds |
| LowLevel.GetHandsOut | sw/fmc150_acquisition_lwip_0/src/low_level_op.c:217-304 | exactly when a call succeeds, how many samples it hands out and from where, all among the samples counted |
| LowLevel.AcceptedExactly | sw/fmc150_acquisition_lwip_0/src/low_level_op.c:168-201 | the bytes handed out after a capture are the captured ones, whatever is captured, if and only if the transfer was accepted; otherwise they are what lay in memory before |
| LowLevel.TilesOnce | sw/fmc150_acquisition_lwip_0/src/low_level_op.c:294-295 | every sample below the position was handed out in exactly one range |
| LowLevel.TilesBelow | sw/fmc150_acquisition_lwip_0/src/low_level_op.c:294-295 | the ranges are nonempty, increasing and do not overlap |
| LowLevel.LowLevelHandler.CaptureSamples | sw/fmc150_acquisition_lwip_0/src/low_level_op.c:165-214 | starts the engine and updates the handler as Capture says; no byte is stored but those the transfer before still owed |
| LowLevel.LowLevelHandler.GetSamples | sw/fmc150_acquisition_lwip_0/src/low_level_op.c:217-304 | updates the handler and returns size and offset as Get says, wrap-around included; success means that everything has landed |
| Wire.FrameSize | sw/fmc150_acquisition_lwip_0/src/connection_server.c:22-67 | a data packet takes 8 + num bytes, a message 8 + num + 1, and whatever ends in time fits send_buf |
| Wire.FrameLayout | sw/fmc150_acquisition_lwip_0/src/connection_server.c:32-63 | byte by byte: type and num, most significant byte first, then the data for types 2, 3, 4, 5, 6, 9 and 10, and a 16-bit length and the text for all others |
| Wire.TextEncoding | sw/fmc150_acquisition_lwip_0/src/connection_server.c:58-63 | a text packed with `%ds` is recovered by unpack with the same format, cut if it grew beyond num |
| Wire.ParseFrame | sw/fmc150_acquisition_lwip_0/src/connection_server.c:22-67 | one packet parses back to what the client hears of it, whatever follows |
| Wire.FramesParse | sw/fmc150_acquisition_lwip_0/src/connection_server.c:22-67 | a stream of responses parses back to that list, texts that grew beyond num being cut |
| Wire.CommandRoundTrip | sw/fmc150_acquisition_lwip_0/src/connection_server.c:71-84 | commands and 16-byte blocks correspond one to one |
| Wire.CommandLayout | sw/fmc150_acquisition_lwip_0/src/connection_server.c:77-81 | a command is type, chip select, address and value, most significant byte first |
| Wire.CommandDecoding | sw/fmc150_acquisition_lwip_0/src/connection_server.c:77-81 | unpack with `LLLL` yields the four big-endian words of the block |
| Connection.RecvUnfragmented | sw/fmc150_acquisition_lwip_0/src/connection_server.c:180-200 | recvall returns the next len bytes however they arrive, and reports a shorter stream as closed |
| Connection.SendUnfragmented | sw/fmc150_acquisition_lwip_0/src/connection_server.c:156-178 | while every send makes progress, sendall delivers everything |
| Connection.SendStops | sw/fmc150_acquisition_lwip_0/src/connection_server.c:156-178 | sendall stops at the first send that returns 0 (closed) or less (error), with what was accepted before |
| Connection.RecvStops | sw/fmc150_acquisition_lwip_0/src/connection_server.c:180-200 | recvall stops at the first receive that fails |
| Connection.RecvAllLoop | sw/fmc150_acquisition_lwip_0/src/connection_server.c:180-200 | the loop: bytes stored, bytes consumed and return value, also on error and close |
| Connection.SendAllLoop | sw/fmc150_acquisition_lwip_0/src/connection_server.c:156-178 | the loop: the prefix delivered and the return value, also on error and close |
| Connection.RecvCommandPacket | sw/fmc150_acquisition_lwip_0/src/connection_server.c:86-116 | a command is returned only for 16 whole bytes |
| Connection.ReceiveUnfragmented | sw/fmc150_acquisition_lwip_0/src/connection_server.c:86-116 | repeated calls return the decoding of the successive 16-byte blocks for every fragmentation; a partial block is reported as closed |
| Connection.PrepareToWriteResponse | sw/fmc150_acquisition_lwip_0/src/connection_server.c:22-67 | lays the packet out at the front of the buffer and nothing beyond it |
| Connection.SendResponsePacket | sw/fmc150_acquisition_lwip_0/src/connection_server.c:118-141 | what reaches the peer and what is returned; an empty packet is refused |
| Connection.ResponseSent | sw/fmc150_acquisition_lwip_0/src/connection_server.c:118-141 | an empty response fails, one whose text does not end in time is lost, any other reaches a peer that makes progress |
| Requests.PayloadInBuffer | sw/fmc150_acquisition_lwip_0/src/server.c:258-262 | the bytes a packet points at are among those counted, and between 1 and 4096 |
| Requests.HandleKeeps | sw/fmc150_acquisition_lwip_0/src/server.c:161-336 | every call keeps both handlers and the response packet valid, wherever it prints |
| Requests.HandleIsolated | sw/fmc150_acquisition_lwip_0/src/server.c:161-336 | a command for something else leaves a handler alone, and its memory but for bytes that land there, its answer through its pointer, and a soft-register write to an address in the region |
| Requests.PrintRead | sw/fmc150_acquisition_lwip_0/src/server.c:205-331 | what is stored through a pointer is what is read back through it |
| Requests.AnswerRead | sw/fmc150_acquisition_lwip_0/src/server.c:195-336 | a text or register value that nobody overwrites is sent as it was stored, for every pointer |
| Requests.FailsExactly | sw/fmc150_acquisition_lwip_0/src/server.c:161-336 | a request is answered with an error exactly for unknown commands, counts out of range, a capture of nothing, refused or stuck DMA, and a busy SPI read |
| Requests.RegisterArrives | sw/fmc150_acquisition_lwip_0/src/server.c:270-285 | the client parses a register read that nobody overwrites as a data packet holding the value, low byte first, or the four bytes that lie in a DMA buffer at the address; the handlers stay but for what lands and the four bytes stored through the pointer |
| Protocol.Outcomes | sw/fmc150_acquisition_lwip_0/src/server.c:199-335 | what each command number is answered with, in success and failure, limits and poll count written out |
| Protocol.AnswerHeader | sw/fmc150_acquisition_lwip_0/src/server.c:195-335 | the type, size and pointer of every answer; 1 and the text's length with terminator for a message |
| Protocol.RangeRefused | sw/fmc150_acquisition_lwip_0/src/server.c:213-238 | a capture or fetch above its limit fails with the limit and leaves both handlers as they were, but for bytes that land and the text printed through the pointer |
| Protocol.CaptureCarried | sw/fmc150_acquisition_lwip_0/src/low_level_op.c:165-214 | a capture within the limit: count, position, length, control word and the exact bytes handed to the engine, accepted or not |
| Protocol.GetCarried | sw/fmc150_acquisition_lwip_0/src/low_level_op.c:217-304 | a fetch within the limit: how many samples, from where, in 4- or 16-byte samples and packets of 1024 or 256, in every case of success and failure |
| Protocol.PlaceNumbers | sw/fmc150_acquisition_lwip_0/src/low_level_op.c:344-365 | which soft-register addresses lead into the DMA buffers, and where |
| Protocol.SoftRegister | sw/fmc150_acquisition_lwip_0/src/low_level_op.c:344-365 | what is written to a soft register in a DMA buffer is read back, by any connection, unless a transfer is in progress there or the answer to the write is printed over it |
| Protocol.SampleBytes | sw/fmc150_acquisition_lwip_0/src/low_level_op.h:21-26 | sample sizes, samples per packet and limits of both handlers |
| Protocol.AdmittedCounts | sw/fmc150_acquisition_lwip_0/src/low_level_op.h:16-27 | the counts a transfer admits are exactly 1 to 2097151, or 1 to 524287, that is, those whose bytes, without wrapping, the engine can transfer |
| Server.AcquisitionServer.HandleRequest | sw/fmc150_acquisition_lwip_0/src/server.c:161-336 | handlers, memory behind the pointer and at soft-register addresses, response packet and return value, as Handle says, with transfers still running when the answer is printed |
| Server.AcquisitionServer.HandleAndSend | sw/fmc150_acquisition_lwip_0/src/server.c:381-401 | one call and one packet, whose payload is read from memory as it is when the packet is sent, after calls of others and more landing |
| Server.AcquisitionServer.Answer | sw/fmc150_acquisition_lwip_0/src/server.c:371-413 | the inner loop is Serve, and ends under any interference |
| Server.AcquisitionServer.ProcessClientRequest | sw/fmc150_acquisition_lwip_0/src/server.c:339-418 | the connection loop is Session: handlers, memory, output, transcript and unread input, from any first response packet |
| Delivery.BadCount | sw/fmc150_acquisition_lwip_0/src/server.c:56-75 | a count of 0 or above the maximum causes one response, an error, if its bytes modulo 2^32 lie between 0 and 2^31, and none otherwise; it changes nothing but the bytes its text is printed over, and the text arrives unless it is overwritten before it is copied |
| Delivery.GetBounds | sw/fmc150_acquisition_lwip_0/src/server.c:379-413 | with any interference a GET of S samples takes at most S packets, sends at most S + M - 1 samples, and at least S if nothing fails |
| Delivery.TransferBounds | sw/fmc150_acquisition_lwip_0/src/server.c:379-413 | and every one of its successful packets carries 1 to M whole samples, with at most one failure at the end |
| Delivery.Drain | sw/fmc150_acquisition_lwip_0/src/server.c:379-413 | the rest of a transfer sends exactly the rest of the buffer in ceil(left / M) packets |
| Delivery.ExactGet | sw/fmc150_acquisition_lwip_0/src/server.c:371-413 | leftover 0 or S: an uninterrupted GET sends exactly the S samples of the buffer in ceil(S / M), or 1 + ceil((S - 1) / M), packets and drains the handler |
| Amounts.GetAmounts | sw/fmc150_acquisition_lwip_0/src/server.c:371-413 | the same in numbers: 4 or 16 bytes a sample, every packet of 1024 or 256 samples while that many are left, after a single first sample if just S were left |
| Overshoot.SentBytes | sw/fmc150_acquisition_lwip_0/src/low_level_op.c:250-295 | what an uninterrupted transfer sends from any leftover |
| Overshoot.FullPackets | sw/fmc150_acquisition_lwip_0/src/low_level_op.c:267-269 | from a buffer that holds all that is due but no whole request: rounded up to full packets, cut at the end of the buffer |
| Overshoot.OneByOne | sw/fmc150_acquisition_lwip_0/src/low_level_op.c:220-258 | while whole requests fit in the buffer, one sample at a time |
| Overshoot.ExactlyWhen | sw/fmc150_acquisition_lwip_0/src/server.c:371-413 | an uninterrupted GET sends exactly S samples if and only if the leftover is 0, S, less than S by a multiple of M, or more than S with 2S - 1 - leftover not positive or a multiple of M |
| Overshoot.OvershootExample | sw/fmc150_acquisition_lwip_0/src/server.c:371-413 | CAPTURE(2) and then GET(3), uninterrupted, sends five samples |
| Runs.SessionShape | sw/fmc150_acquisition_lwip_0/src/server.c:339-413 | in every run: each command but GET gets exactly one response attempt until one fails, then nothing more is answered |
| Runs.ShapeFlat | sw/fmc150_acquisition_lwip_0/src/server.c:339-413 | the attempts of a connection are successes followed by at most one failure |
| Runs.ServeSends | sw/fmc150_acquisition_lwip_0/src/server.c:397-401 | after a failed send nothing more is sent for that command |
| Runs.SessionCommands | sw/fmc150_acquisition_lwip_0/src/server.c:353-364 | every command of the input is taken up in order, whatever was answered or sent before, unless a packet overruns send_buf |
| Runs.SessionCalls | sw/fmc150_acquisition_lwip_0/src/server.c:339-413 | a connection and its rivals leave the handlers as some sequence of whole calls does, so whatever holds of reachable states holds after every connection |
| Runs.GetsDeliver | sw/fmc150_acquisition_lwip_0/src/server.c:353-413 | a list of GETs on drained handlers outputs packets that group into the captured buffers |
| Runs.EndToEnd | sw/fmc150_acquisition_lwip_0/src/server.c:353-413 | the bytes the client receives parse into packets that, split at NEW_DATA and concatenated, are exactly the captured buffers, one per command, in order |
| Amounts.EndToEndBytes | sw/fmc150_acquisition_lwip_0/src/server.c:353-413 | the same byte by byte: buffer i has 4 or 16 bytes a sample, and byte j of it is what the engine delivered there for the call that captured it |
| Runs.CaptureServe | sw/fmc150_acquisition_lwip_0/src/server.c:210-227 | an uninterrupted capture is answered with one packet: the message, if nothing lands over it before it is copied, and else possibly a text that overruns send_buf |
| Runs.MatchedRunsExact | sw/fmc150_acquisition_lwip_0/src/server.c:353-413 | in any run of GETs and matching CAPTURE, GET pairs every GET sends exactly the number of bytes asked for, and the handlers end drained, unless a capture's reply overruns send_buf |
| Runs.PairArrives | sw/fmc150_acquisition_lwip_0/src/server.c:209-262 | an uncontended CAPTURE(S), GET(S) delivers every byte as captured, or as the reply to the capture printed it, where the pointer left behind leads and the byte had landed before |
| Runs.PairExactly | sw/fmc150_acquisition_lwip_0/src/server.c:209-262 | so it delivers exactly the captured samples, whatever they are and however they land, if and only if that pointer does not lead into them |
| Pairs.SafeRuns | sw/fmc150_acquisition_lwip_0/src/server.c:209-413 | in a run whose captures never find the pointer in their samples, every transfer delivers exactly its samples, and no packet is lost |
| Pairs.RunsArriveExactly | sw/fmc150_acquisition_lwip_0/src/server.c:209-413 | for a list of GETs and matching pairs: every transfer delivers exactly the samples captured for it, whatever they are and however they land, if and only if no capture finds the pointer the last transfer left, a function of the list, leading into its samples |
| Sharing.ReachableStates | sw/fmc150_acquisition_lwip_0/src/low_level_op.c:165-304 | from start-up, after any calls of any connections: bounds on position, count and DMA length, no overflow, control words with the count below bit 21, and a tiling |
| Sharing.NextKept | sw/fmc150_acquisition_lwip_0/src/server.c:161-413 | in every run of many connections the record of what each byte of memory is is true, the current transfer is the last and exactly as long as the count, and packets not yet copied point at samples that were handed out |
| Tracing.HandleTrue | sw/fmc150_acquisition_lwip_0/src/server.c:161-336 | every call, with texts, registers, soft registers and landing bytes, keeps the record of what each byte is true |
| Tracing.HandleAlike | sw/fmc150_acquisition_lwip_0/src/server.c:161-336 | what a call does, other than move bytes, does not depend on the samples |
| Conservation.DeliversExactly | sw/fmc150_acquisition_lwip_0/src/server.c:161-413 | after a capture, whatever any connections do and at whatever pace the bytes land: every packet of its samples is sent with the captured bytes, whatever they are, if and only if each of its bytes is still the sample that landed there when it is copied |
| Untouched.LeftAloneIntact | sw/fmc150_acquisition_lwip_0/src/server.c:161-413 | if no call stores below the end of the samples, and no capture is accepted while a packet of them is still to be copied, every packet is intact, however the bytes land |
| Untouched.LeftAloneDelivers | sw/fmc150_acquisition_lwip_0/src/server.c:161-413 | so the clients are sent exactly the captured samples, whatever they are |
| Conservation.CollectedKeys | sw/fmc150_acquisition_lwip_0/src/low_level_op.c:250-304 | the bytes copied for sending are exactly those owed at first and those handed out since |
| Conservation.Conserved | sw/fmc150_acquisition_lwip_0/src/low_level_op.c:165-304 | from start-up, however connections interleave and bytes land, with nothing left to copy: the clients hold between them exactly the bytes handed out since the last capture, and they are the captured ones if every packet was intact |
| Conservation.StruckExample | sw/fmc150_acquisition_lwip_0/src/server.c:195-336 | GET(1), CAPTURE(10), GET(1), a register write and GET(1) on one connection, however the samples land: the last packet carries the text of the answer to the write |
| Conservation.ForeignCapture | sw/fmc150_acquisition_lwip_0/src/server.c:381-398 | GET(1) on one connection and a capture on another before the first copies: the first sends the bytes of the second capture that have landed by then, and its own sample for the rest |

## Left out

- Server.Session: connections interleave whole calls of `handle_request` and whole copies of a payload; the code has no lock, so a preemption inside a call or in the middle of a copy is not captured.
- Server.AcquisitionServer.ProcessClientRequest: the response packet on the stack starts out with any type, a `num` of at most 4096, and a pointer that leads into a DMA buffer or to 4096 bytes of memory of its own; the original leaves all of it uninitialised.
- Server.Step: a text that no longer ends within `send_buf`, because others stored over its terminator, ends the run; the original would write past the buffer.
- LowLevel.Land: a transfer lands in the order of addresses. An engine that an error halted in the middle of a transfer is not captured, nor are the clearing of the status register and the zero written before the control word.
- LowLevel.State: memory is one; the data cache, which the code never invalidates, is taken to be coherent with the DMA engine.
- Requests.StoreWord: a soft-register address outside the two DMA regions is a device register; the client could name any address of the program's memory as well. An address that is no multiple of four is taken to mean the word it falls into.
- PackLoops.Unpack: reads beyond the buffer are a precondition (`Decode` says `Overrun`), as are writes beyond it in `Pack`; the C code checks neither.
- Formats.Accepts: arguments match the format, as variadic calls demand; strings end at their first NUL.
- Formats.RoundTripExactly: no exact condition for bounded strings after a negative `c`, where the reader is out of step and a misread length can be cut to the right text by chance; `RoundTrip` and `BoundedString` cover bounds in front of it.
- Formats.LagExactly: formats without bounds, for the same reason.
- Float754.Encode: exact reals. Rounding of machine floats, NaN, infinities and subnormal inputs have no case in the code; the conversions between float widths around `f` and `d` are exact here.
- Runs.EndToEnd: another connection's calls during the transfers are excluded; `GetBounds`, `DeliversExactly`, `LeftAloneDelivers` and `Conserved` say what holds with them.
- Runs.MatchedRunsExact: the number of bytes only; which bytes arrive is in `PairArrives` and `RunsArriveExactly`.
- The wording of messages is a parameter (NUL-free, at most 4094 bytes).
- `tokenize_send_buffer`, `generate_data`, the printing functions and debug output.
- Device registers, SPI and LED access, hardware set-up, delays: what they return is an oracle value, what is written to them goes nowhere.
- Threads, lwIP, the accept loop and closing sockets; the peer's stream and its fragmentation are the oracle of `Connection.Socket`.
- The cases of `handle_request` that no lookup table admits: ADC delay, DDC register access, the combined DDC and FMC150 commands and QUIT.
- The lookup tables fill structures in place in the original; here they are functions.
