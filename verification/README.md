# A verified model of the Modbus stack

This project models `internal/modbus`: the client, the server's request loop and its pool of
connections, the MBAP and RTU framings, the CRC, the encodings, and the adapter that turns a UDP
socket into a byte stream. Both ends of the protocol are in the repository, so the results run from
a call of the client, through the bytes on the wire, to the server's request handler and back.

`dafny verify dfyconfig.toml` checks everything.

## How it is laid out

| file | what is in it |
|---|---|
| `Bytes.dfy`, `Bits.dfy` | machine words as ranges of integers, bits, and the packing of coils |
| `Encoding.dfy` | 16, 32 and 64-bit values in every byte and word order |
| `CrcTable.dfy`, `Crc.dfy`, `TwoBits.dfy` | the CRC table, the CRC register bit by bit, and what errors the CRC catches |
| `Modbus.dfy` | PDUs, function and exception codes, errors |
| `Links.dfy`, `Segmentation.dfy` | sockets that read in pieces, the UDP adapter, `io.ReadFull`, and their independence of how the bytes are cut up |
| `Mbap.dfy`, `StaleResponses.dfy` | MBAP frames, the search for a response, and whole runs with late responses |
| `Rtu.dfy` | RTU frames, corrupted frames, and the pacing of the line |
| `Server.dfy`, `ServerLoop.dfy` | requests, calls of the handler, replies and sessions; the request loop |
| `Pool.dfy`, `Acceptors.dfy` | the connection pool, with any number of acceptors and handlers; when acceptors pile up |
| `Framings.dfy` | the server's responses in either framing |
| `Ops.dfy`, `Client.dfy` | the client's requests, and the client itself |
| `ServerFate.dfy`, `FrameFate.dfy`, `ClientFate.dfy` | the protocol's manual once more, as a table from bytes to outcomes with every number written out, and the server, the framings and the client against it |
| `EndToEnd.dfy`, `Memory.dfy` | client and server together, and a server that keeps 65536 registers and as many coils |

Code that works step by step is a class or a method with loops (`Crc`, `Socket`, `UdpSockWrapper`,
`TcpTransport`, `RtuTransport`, `RequestHandler`, `HandleTransport`, `ModbusServer`, `ModbusClient`),
and each of its methods is proved to do what a function says of the old state. The properties are then
lemmas about those functions.

How the surroundings are modelled:

- A link is a finite stream of bytes with the error that reading ends in, and with errors that writing
  and setting a deadline may fail with. How many bytes a read delivers is arbitrary. A timeout is such an
  ending; runs of calls that go on after timeouts and other failures are in `StaleResponses.dfy`, where each
  call has frames of its own that arrive before it gives up, and a link that may fail in its own way.
- Time is a clock that never goes back, and is used for the pacing of RTU requests only.
- The request handler is any function of a call and of all the calls before it.
- Sockets and listeners of the pool are numbered. Each action of a goroutine between two uses of the
  lock, or under it, is one step, and a run is any sequence of steps.

Where the code differs from what its comments or error messages suggest, the model follows the code:

- A register read of quantity 0 or above 123 sets an error that the transport's result then overwrites, so
  such a quantity alone does not keep the request from being sent. The client turns a register read down
  exactly for an unknown kind of register or a range past the address space, where nothing at address 0
  counts as past it; of what it sends, the server calls its handler exactly for 1 to 125 registers, and drops
  the link otherwise (`EndToEnd.RegisterReadFate`, with inputs in `EndToEnd.OddReadsSent`).
- The length of a list to write is taken in 16 bits. What the client sends is in range exactly if the length
  has not wrapped around, and a list of 65537 coils is sent (`EndToEnd.ListWriteFate`, `EndToEnd.LongListSent`).
- `quantity*2` and `quantity*4` wrap around in 16 bits, so a 32-bit or 64-bit read of a large quantity can
  succeed with fewer values than asked for (`Ops.WideReadCount`, `Ops.WrappedReadSucceeds`).
- The echo of a cleared coil is accepted whatever its third byte (`Ops.EchoedExactly`, with an input in
  `Ops.LooseEcho`).
- A handler that returns the protocol error makes the server drop the link without a response.
- The fixed silence of 1750 microseconds applies from 19200 bauds on, but up to 21999 bauds it is up to 13 percent
  shorter than 3.5 characters, and at 22000 bauds it is exactly that (`Rtu.SilenceFrom19200`). At lower rates,
  rounding takes away less than four nanoseconds; the silence is fully as long exactly from 22000 bauds on and at
  lower rates without rounding (`Rtu.FixedDelay`).
- Writing bytes pads and swaps them in the caller's own memory, unless an odd number of them has no room
  behind it. The caller's slice stays as it is exactly if there is no swap, or no room, or if each register has
  two equal bytes (`Client.ModbusClient.WriteBytes`, `Ops.MemoryKept`, with inputs in `Ops.MemoryChanges`).
- An acceptor that is busy while the server stops and starts again goes on beside the new one
  (`Pools.AcceptorsCanPileUp`). There is at most one acceptor in every state of a run exactly if no start of the
  run comes while an earlier acceptor is still there (`Acceptors.PileUpExactly`), and a connection accepted before
  a stop joins the pool later exactly if its acceptor takes the lock after another start, with room
  (`Acceptors.JoinsAfterStopExactly`). The pool stays within its limit all the same.

## Main results

- Transparency: over any sequence of requests in range, to any units, the handler is called exactly once
  for each, in order and with the same arguments, and the client gets what the handler returns, or the same
  error if it is one of the nine that have a code; and all of it is one session of the server over the bytes that
  the client writes (`EndToEnd.Transparent`). Over any sequence of reads and writes, a server that keeps registers
  and coils answers as a memory of the client's own would (`Memory.Remembers`), and typed values come back as
  written.
- The CRC by table is the bit-serial CRC-16 of section 6.2.2 of MODBUS over Serial Line V1.02
  (`Crcs.CrcIsSerial`). A frame is refused after any burst of up to sixteen bits, any odd number of flipped bits, and
  any one, two or three flipped bits that leave its extent as it is (`Rtu.BurstRejected`, `Rtu.OddErrorRejected`,
  `Rtu.FewErrorsRejected`). Neither seventeen bits nor four could be promised (`TwoBits.GeneratorUndetected`).
- Both framings undo their parsers both ways, exactly for the PDUs that fit (`Mbap.RoundTrip`, `Rtu.RoundTrip`).
- No call returns a response made for another request, as long as frames arrive whole and no response in flight is
  older than 65536 requests, whichever deadlines and writes fail. Without that bound, a call returns the first frame
  in flight whose request is a multiple of 65536 requests away from its own, and so another's response exactly if
  that frame is another's (`StaleResponses`).
- The handler gets exactly the calls that requests ask for and that are in range (`Server.InvokedExactly`), and
  each request gets exactly one response until the session ends (`Server.RunTrace`).
- What becomes of every request at the server, of every stream in either framing and of every call at the client is
  given by the bytes alone: which requests are answered with which exception and which drop the link
  (`ServerFate.RequestFate`), whose responses are accepted and which error every other response or silence comes to
  (`ClientFate.AnsweredCall`, `ClientFate.UnansweredCall`, `ClientFate.SerialCall`), and how a serial line gets back
  in step after a damaged frame (`FrameFate.BackInStep`).
- The pool is safe over every interleaving (`Pools.SafeRun`).

## Model

| member | source | states |
|---|---|---|
| Bits.UnpackPacked | internal/modbus/encoding.go:187-213 | decoding undoes encoding for every list of booleans |
| Bits.PackUnpacked | internal/modbus/encoding.go:187-213 | encoding what was decoded gives the bytes back, with the unused top bits of the last one cleared |
| Bits.PackedBits | internal/modbus/encoding.go:187-204 | bit i of the packed bytes is boolean i, least significant bit first, and bits past the list are zero |
| Bits.EncodeBools | internal/modbus/encoding.go:187-204 | setting bits in a zeroed buffer gives the packing, of the ceiling of n/8 bytes |
| Bits.DecodeBools | internal/modbus/encoding.go:206-213 | shifting and masking gives the bits of the bytes, without an index out of range |
| Encoding.DecodeEncoded | internal/modbus/encoding.go:8-45 | words survive being written and read in the same byte order |
| Encoding.EncodeDecoded | internal/modbus/encoding.go:8-45 | bytes survive being read as words and written again |
| Encoding.ValuesOfWordsOf | internal/modbus/encoding.go:47-167 | lists of 32-bit or 64-bit values survive being cut into words in either order and put together |
| Encoding.WordsLayout | internal/modbus/encoding.go:74-167 | the byte shuffles amount to the words in word order, each in byte order |
| Encoding.Uint32ToBytes | internal/modbus/encoding.go:74-95 | the in-place shuffle of four bytes gives the two words of the value in word order, each in byte order |
| Encoding.Uint64ToBytes | internal/modbus/encoding.go:144-167 | the in-place shuffle of eight bytes gives the four words of the value in word order, each in byte order |
| Encoding.ValueOfChunk | internal/modbus/encoding.go:47-142 | reading a chunk directly or with its words swapped is reading its words in word order |
| Encoding.BytesToUint32s | internal/modbus/encoding.go:47-72 | the loop yields the values of the words, in every byte and word order |
| Encoding.BytesToUint64s | internal/modbus/encoding.go:115-142 | the loop yields the values of the words, in every byte and word order |
| Modbus.ExceptionCodesRoundTrip | internal/modbus/modbus.go:76-129 | the nine codes and their errors translate into each other and back, and every other error becomes a device failure |
| Crcs.TableIsSerial | internal/modbus/crc.go:3-36 | every entry of the table is eight rounds of the bit-serial register on its index |
| Crcs.CrcIsSerial | internal/modbus/crc.go:3-60 | the table-driven CRC equals the bit-serial one on every byte string |
| Crcs.AddBytesConcat | internal/modbus/crc.go:50-60 | adding in pieces equals adding the concatenation |
| Crcs.Crc.Add | internal/modbus/crc.go:50-60 | the loop over the bytes leaves the register that adding them one after the other gives |
| Crcs.Crc.IsEqual | internal/modbus/crc.go:69-73 | two bytes are equal to the CRC exactly if they are what value returns |
| Crcs.Residue | internal/modbus/crc.go:63-73 | a byte string ends in its CRC exactly when the register is empty after all of it |
| Crcs.RunLinear | internal/modbus/crc.go:50-60 | the register after the exclusive or of two streams is the exclusive or of the registers |
| Crcs.RunInjective | internal/modbus/crc.go:50-60 | the same bits never take two registers to the same one |
| Crcs.BurstDetected | internal/modbus/crc.go:43-73 | no nonzero error within sixteen consecutive bits leads from one byte string that ends in its CRC to another |
| Crcs.EvenOnes | internal/modbus/crc.go:50-73 | a byte string that ends in its CRC has an even number of one bits, CRC included |
| Crcs.OddErrorDetected | internal/modbus/crc.go:50-73 | an error of an odd number of bits never leads from one byte string that ends in its CRC to another |
| TwoBits.NoEarlyReturn | internal/modbus/crc.go:50-60 | a certain register is brought back by no number of rounds from 1 to 4680 |
| TwoBits.FewErrorsDetected | internal/modbus/crc.go:50-73 | in up to 585 bytes, an error of one, two or three bits never leads from one byte string that ends in its CRC to another |
| TwoBits.UndetectedExactly | internal/modbus/crc.go:50-73 | an error goes undetected exactly if it leaves an empty register empty |
| TwoBits.GeneratorUndetected | internal/modbus/crc.go:50-73 | the four bits of the generator polynomial, spread over seventeen, are never detected, so the bounds on bursts and on few errors are the best |
| Links.UdpSockWrapper.Read | internal/modbus/udp.go:26-60 | bytes delivered and bytes still to come are the stream, in order, and at most 260 bytes are held over |
| Links.NothingLost | internal/modbus/udp.go:40-56 | what reading yields is the concatenation of the datagrams exactly if each has at most 260 bytes |
| Links.ReadRun | internal/modbus/udp.go:26-60 | over any run of reads of any sizes, bytes delivered followed by bytes to come are the stream |
| Links.ReadFull | internal/modbus/tcp_transport.go:133-138 | reading in full depends on the byte stream alone, whatever the pieces, and so does its error |
| Segmentation.MbapFrame | internal/modbus/tcp_transport.go:127-187 | the same frame is read over a stream in any pieces and over UDP in any datagrams of at most 260 bytes |
| Segmentation.RtuFrame | internal/modbus/rtu_transport.go:137-199 | the same RTU frame is read over a stream in any pieces and over UDP in any datagrams of at most 260 bytes |
| Segmentation.InStep | internal/modbus/udp.go:26-60 | two links of any kind that hold the same bytes give the same frames, for any number of them |
| Mbap.ParsePrinted | internal/modbus/tcp_transport.go:127-205 | a well-formed frame followed by anything is recovered, and exactly its bytes are consumed |
| Mbap.PrintParsed | internal/modbus/tcp_transport.go:127-205 | whatever a successful read consumed is the frame of what it returned |
| Mbap.RoundTrip | internal/modbus/tcp_transport.go:127-205 | a PDU and its transaction id survive the wire exactly if the payload has at most 252 bytes |
| Mbap.RespondingFindsFirst | internal/modbus/tcp_transport.go:95-124 | on well-formed frames, the loop returns the first of protocol 0 and the awaited transaction, and leaves exactly the bytes after it |
| Mbap.TcpTransport.ReadMbapFrame | internal/modbus/tcp_transport.go:127-187 | the steps of the reader parse the stream as specified, on every stream |
| Mbap.TcpTransport.ReadResponse | internal/modbus/tcp_transport.go:95-124 | the retry loop ends on every finite stream and returns what the specification says |
| Mbap.TcpTransport.ExecuteRequest | internal/modbus/tcp_transport.go:42-60 | result, stream left, transaction counter and bytes written of one exchange, errors included |
| Mbap.TcpTransport.ReadRequest | internal/modbus/tcp_transport.go:63-81 | the request read and the transaction id kept for its response, errors included |
| Mbap.TcpTransport.WriteResponse | internal/modbus/tcp_transport.go:84-91 | a response goes out as one frame under the transaction of the last request |
| StaleResponses.NoStaleResponse | internal/modbus/tcp_transport.go:42-124 | over any run of whole frames, late, duplicate or missing, in which deadlines and writes may fail and no response is older than 65536 requests, each call returns a response made for its own request or the error it ends in |
| StaleResponses.TakenExactly | internal/modbus/tcp_transport.go:42-124 | over any run of whole frames, in which deadlines and writes may fail, each call that reads returns the first frame in flight whose request is a multiple of 65536 away from its own, and every other call its error |
| StaleResponses.StaleResponse | internal/modbus/tcp_transport.go:49-122 | an instance: a response exactly 65536 requests old is returned as the answer |
| StaleResponses.StopsInside | internal/modbus/tcp_transport.go:133-170 | a read that stops inside a frame takes all of it that had arrived, and the call ends in an error |
| StaleResponses.FrameInsideFrame | internal/modbus/tcp_transport.go:95-170 | frames have to be whole: after a stop inside a frame that carries another, the next call takes the other for its answer |
| Rtu.RoundTrip | internal/modbus/rtu_transport.go:137-249 | a PDU is recovered from its frame followed by anything, consuming exactly the frame, exactly if its length is what its first bytes say |
| Rtu.PrintParsed | internal/modbus/rtu_transport.go:137-217 | whatever a successful read consumed is the frame of what it returned |
| Rtu.NoPrefix | internal/modbus/rtu_transport.go:147-179 | no proper prefix of a frame yields a PDU |
| Rtu.BurstRejected | internal/modbus/rtu_transport.go:157-189 | a frame with a nonzero error within sixteen bits that leaves its extent as it is gives the CRC error, and no PDU |
| Rtu.OddErrorRejected | internal/modbus/rtu_transport.go:157-189 | a frame with an odd number of flipped bits that leave its extent as it is gives the CRC error, and no PDU |
| Rtu.FewErrorsRejected | internal/modbus/rtu_transport.go:157-189 | a frame with one, two or three flipped bits that leave its extent as it is gives the CRC error, and no PDU |
| Rtu.RtuTransport.ReadRtuFrame | internal/modbus/rtu_transport.go:137-199 | the steps of the reader parse the stream as specified, on every stream |
| Rtu.RtuTransport.AssembleRtuFrame | internal/modbus/rtu_transport.go:202-217 | the appends give unit, function code, payload and the CRC of all of it, low byte first |
| Rtu.RtuTransport.ExecuteRequest | internal/modbus/rtu_transport.go:59-110 | result, stream left and bytes written; the activity mark never goes back, no write starts within t3.5 of it, and after a write of n bytes the next starts at least n characters and t3.5 later; a framing error is followed by another 256 characters of waiting, and the mark ends up at the present, or at the last character sent if the line was silent |
| Rtu.PacedSnoc | internal/modbus/rtu_transport.go:70-92 | a write that waits for the mark and t3.5 keeps the pacing of the whole log, and the mark moves past it |
| Rtu.FixedDelay | internal/modbus/rtu_transport.go:39-46 | the silence between frames is short of 3.5 characters of eleven bits by less than four nanoseconds exactly outside 19200 to 21999 bauds, and not short at all exactly from 22000 bauds on or, below 19200, where nothing is rounded |
| Rtu.SilenceFrom19200 | internal/modbus/rtu_transport.go:39-46 | the silence is the same for all rates from 19200 bauds on, exactly 3.5 characters at 22000, and at least 87 percent of that below |
| Rtu.CharTime | internal/modbus/rtu_transport.go:265-275 | a character takes eleven bits at the rate of the line, rounded down to a nanosecond |
| Server.InvokedExactly | internal/modbus/server.go:394-767 | the handler gets a call exactly if the request, byte by byte, asks for that call and the call is in range: quantity at least 1, within the limit and the address space, one argument for each address written |
| Server.AnswerShape | internal/modbus/server.go:454-795 | a request is left unanswered exactly if it is malformed or the handler says so; every response carries the request's unit, its function code or, with one byte of payload, that code plus 128, and at most 251 payload bytes |
| Server.RunTrace | internal/modbus/server.go:388-806 | each request gets exactly one response, in order and under its transaction, until the first that stops the session |
| Framings.ResponseShaped | internal/modbus/rtu_transport.go:220-249 | the length that the RTU reader works out from a response's first bytes is the length that the server gives it |
| Framings.ResponseReadable | internal/modbus/server.go:454-798 | every response to a known function code is recovered from either framing, consuming exactly its bytes |
| ServerLoop.Process | internal/modbus/server.go:394-768 | the switch over function codes, with its checks in order, decides every request as specified and calls the handler at most once |
| ServerLoop.HandleTransport | internal/modbus/server.go:381-810 | the loop ends, its calls of the handler, its writes and what it leaves unread are those of the session, and it closes the link exactly if the session drops it |
| ServerLoop.PrintedFlat | internal/modbus/server.go:797-798 | the writes of a session, put together, are its frames one after the other |
| ServerFate.RequestFate | internal/modbus/server.go:394-795 | every request, byte by byte: an unknown function gets exception 1, a well-formed range past 0xffff gets exception 2, a wrong length, quantity, byte count or coil value gets no answer and drops the link, none of these reaches the handler, and every other request gets the one call written out and the answer its outcome comes to |
| ServerFate.DroppedExactly | internal/modbus/server.go:779-787 | the link is dropped, and a session stopped, exactly for those faults or if the handler returns the protocol error |
| ServerFate.TopBitSet | internal/modbus/server.go:763-791 | the function code of an exception response is the request's with bit 7 set and the others as they were |
| ServerFate.Numbers | internal/modbus/modbus.go:76-129 | each of the nine errors by its number, 4 for all others, and which numbers are known |
| ServerFate.WriteErrorsPassedOver | internal/modbus/server.go:797-801 | a session whose responses cannot be sent makes the same calls, reads the same bytes and ends alike |
| FrameFate.MbapFate | internal/modbus/tcp_transport.go:127-187 | result and rest of reading any stream: the lengths accepted, the order of the checks, the fields by position, and the error of every stream that stops short |
| FrameFate.MbapBytes | internal/modbus/tcp_transport.go:190-205 | the bytes of a frame, one by one |
| FrameFate.AnnouncedLength | internal/modbus/rtu_transport.go:220-249 | the length announced for each function code by number |
| FrameFate.RtuFate | internal/modbus/rtu_transport.go:137-199 | result and rest of reading any stream, a silent line and every stream that stops short included |
| FrameFate.RtuBytes | internal/modbus/rtu_transport.go:202-217 | unit, function code and payload, and two bytes that make the frame end in its CRC |
| FrameFate.ExchangeFate | internal/modbus/rtu_transport.go:59-110 | result, stream left and frame written, from the bytes on the line and the failures of the link |
| FrameFate.FlushedAfterDamage | internal/modbus/rtu_transport.go:97-102 | after a frame damaged by a burst, an odd number of bits or up to three of them, the bytes behind it are gone, and what lies beyond 1024 of them stays |
| FrameFate.FlushedAfterHeader | internal/modbus/rtu_transport.go:97-102 | so it is after a header with an unknown function code or too great a length |
| FrameFate.BackInStep | internal/modbus/rtu_transport.go:97-102 | after a damaged frame with at most 1024 bytes behind it, the next exchange returns the PDU whose frame arrives for it, and leaves what is behind that |
| Pools.SwapDeleteRemovesOne | internal/modbus/server.go:363-369 | the swap with the last element removes exactly one occurrence of the socket |
| Pools.ModbusServer.Start | internal/modbus/server.go:229-256 | an acceptor is spawned exactly if the server goes from stopped to started; a failed bind leaves it stopped |
| Pools.ModbusServer.Stop | internal/modbus/server.go:259-280 | the listener and every socket in the pool are closed, and the pool itself is left as it is |
| Pools.ModbusServer.Admit | internal/modbus/server.go:302-311 | a connection joins the pool exactly if the server is started and there is room |
| Pools.ModbusServer.Remove | internal/modbus/server.go:362-370 | the loop finds the socket and swaps it out, as specified |
| Pools.SafeRun | internal/modbus/server.go:229-376 | over every interleaving the pool is within its limit, without duplicates, holds just the connections accepted and not yet removed, is closed while the server is stopped, and no accepted connection is lost |
| Pools.StepKeepsInvariant | internal/modbus/server.go:229-376 | every step of every thread keeps the invariant |
| Pools.ShrinksUntilStart | internal/modbus/server.go:304-310 | while the server is stopped no connection joins the pool |
| Pools.RemovesItsOwn | internal/modbus/server.go:361-370 | a handler's removal takes exactly its own connection out, which was there |
| Pools.Drained | internal/modbus/server.go:361-376 | once no thread has a connection in the pool, the pool is empty |
| Pools.AcceptorsCanPileUp | internal/modbus/server.go:246-322 | a run in which two acceptors end up on one listener, and a connection accepted before a stop is served after the next start |
| Acceptors.AliveAfter | internal/modbus/server.go:229-326 | the number of acceptors grows by one exactly with a start that binds while the server is stopped, and shrinks by one exactly when an acceptor finds its listener closed |
| Acceptors.PileUpExactly | internal/modbus/server.go:229-326 | in every run, there is at most one acceptor in each state if and only if no such start is taken while an acceptor is alive |
| Acceptors.JoinsAfterStopExactly | internal/modbus/server.go:258-326 | a connection accepted and not yet admitted when the server is stopped joins the pool if and only if its acceptor takes the lock after a start that no stop has followed, with room in the pool |
| Ops.ExactlyAsMany | internal/modbus/client.go:923-1096 | whatever the transport returns, a read gives an error or exactly as many values as asked for |
| Ops.EchoedExactly | internal/modbus/client.go:588-751 | a write succeeds exactly if the response echoes the first bytes of the request, but for one byte of a cleared coil |
| Ops.LooseEcho | internal/modbus/client.go:588-601 | an echo with another third byte that is accepted for a cleared coil |
| Ops.WideReadCount | internal/modbus/client.go:431-512 | a successful 32-bit or 64-bit read gives the number of values asked for exactly if the number of registers has not wrapped around |
| Ops.WrappedReadSucceeds | internal/modbus/client.go:431-444 | an input on which a 32-bit read of 32769 values succeeds with one |
| Ops.MemoryKept | internal/modbus/client.go:902-916 | a write of bytes leaves the caller's slice as it is exactly if there is no swap, no room for the padding, or nothing to tell the bytes of any register apart; what lies past the padding always stays |
| Ops.MemoryChanges | internal/modbus/client.go:902-916 | an input whose bytes are exchanged in place, and one where the byte behind the slice is overwritten |
| Ops.ByteReadCount | internal/modbus/client.go:873-899 | a byte read gives an error or exactly as many bytes as asked for, odd quantities included |
| Client.ModbusClient.ExecuteRequest | internal/modbus/client.go:1180-1204 | timeouts become the request timeout, and responses from other units are refused, gateway exceptions excepted |
| Client.ModbusClient.ReadBools | internal/modbus/client.go:923-1009 | coils or inputs are read as specified, over either transport, without an index out of range |
| Client.ModbusClient.ReadRegisterBytes | internal/modbus/client.go:1012-1096 | registers are read as specified; a quantity of 0 or above 123 alone does not keep the request from being sent |
| Client.ModbusClient.WriteCoil | internal/modbus/client.go:560-617 | the request sent and the echo accepted for a single coil |
| Client.ModbusClient.WriteCoils | internal/modbus/client.go:620-698 | the request sent, parameters turned down and echo accepted for several coils |
| Client.ModbusClient.WriteRegister | internal/modbus/client.go:701-752 | the request sent and the echo accepted for a single register, in the client's byte order |
| Client.ModbusClient.WriteRegisterBytes | internal/modbus/client.go:1100-1178 | the request sent, parameters turned down and echo accepted for several registers |
| Client.ModbusClient.ReadRegisters | internal/modbus/client.go:403-416 | the words read, in the client's byte order, as many as asked for |
| Client.ModbusClient.ReadUint32s | internal/modbus/client.go:431-444 | the 32-bit values read, in the client's byte and word order |
| Client.ModbusClient.ReadUint64s | internal/modbus/client.go:487-500 | the 64-bit values read, in the client's byte and word order |
| Client.ModbusClient.ReadSomeBytes | internal/modbus/client.go:873-899 | the bytes read, swapped in place if asked for, without the padding |
| Client.ModbusClient.SwapPairs | internal/modbus/client.go:888-890 | the loop exchanges the two bytes of each register in place |
| Client.ModbusClient.WriteRegisters | internal/modbus/client.go:755-766 | the words go out in the client's byte order |
| Client.ModbusClient.WriteUint32s | internal/modbus/client.go:769-780 | the 32-bit values go out in the client's byte and word order |
| Client.ModbusClient.WriteUint64s | internal/modbus/client.go:811-822 | the 64-bit values go out in the client's byte and word order |
| Client.ModbusClient.WriteSomeBytes | internal/modbus/client.go:902-919 | the bytes go out padded, and swapped if asked for; both happen in the caller's memory, unless there is no room for the padding |
| ClientFate.RequestFate | internal/modbus/client.go:560-1178 | the request sent for each operation, byte by byte, or its refusal |
| ClientFate.ResponseFate | internal/modbus/client.go:588-1204 | what every response comes to: another unit's is refused but for an exception from unit 255, the function code plus 128 gives the error of its number, and anything else but a right payload is a protocol error |
| ClientFate.FailedCall | internal/modbus/tcp_transport.go:42-61 | a call that is refused, or whose deadline or write fails, gives its error and leaves the link's bytes alone; of these, only a failed write uses a transaction up |
| ClientFate.AnsweredCall | internal/modbus/client.go:1180-1204 | over MBAP, the first frame of the call's transaction decides, by its unit, function code and payload; the frames behind it stay |
| ClientFate.UnansweredCall | internal/modbus/client.go:1180-1204 | over MBAP, a link without an answer gives the error it ends in, the request time-out for either kind of time-out |
| ClientFate.SerialCall | internal/modbus/rtu_transport.go:59-110 | over a serial line, the frame on the line decides; after a framing error up to 1024 bytes behind it are gone |
| ClientFate.SilentLine | internal/modbus/rtu_transport.go:147-155 | over a serial line, silence gives the error it ends in, the request time-out for either kind of time-out |
| EndToEnd.Understood | internal/modbus/client.go:560-1178 | the request that the client sends is taken by the server for the call it stands for |
| EndToEnd.WordsCross | internal/modbus/encoding.go:8-45 | register bytes arrive exchanged exactly if the two sides differ in byte order |
| EndToEnd.RegisterReadFate | internal/modbus/client.go:1024-1057 | which register reads the client turns down, and that the server calls its handler exactly for 1 to 125 registers and drops the link otherwise |
| EndToEnd.OddReadsSent | internal/modbus/client.go:1035-1054 | the requests that are sent for 0 and for 124 registers |
| EndToEnd.ListWriteFate | internal/modbus/client.go:629-646 | a write of a list that the client sends is in range exactly if the length of the list has not wrapped around in 16 bits |
| EndToEnd.LongListSent | internal/modbus/client.go:629-663 | a list of 65537 coils is sent with a quantity of 1 |
| EndToEnd.Returned | internal/modbus/server.go:394-795 | one request through the server and back gives the client what the handler has returned |
| EndToEnd.InPieces | internal/modbus/server.go:388-806 | a session is the same in one go as request by request |
| EndToEnd.OneSession | internal/modbus/server.go:388-806 | the rounds of a conversation are one session of the server, which leaves nothing unread and is not dropped, and each result is what the client makes of its frame |
| EndToEnd.RoundTransparent | internal/modbus/tcp_transport.go:42-205 | one round over MBAP is one call, its result, one frame written and a clean link |
| EndToEnd.Transparent | internal/modbus/client.go:560-1204 | over any sequence of requests in range, the handler's calls are those requests, each once and in order, the results are the handler's, and the server's part is one session over all that the client writes, with one frame for each request |
| Memory.Remembers | internal/modbus/server.go:395-756 | over any sequence of reads and writes of coils and registers in range, overlapping or not, all results and the final memory are those of a memory of the client's own |
| Memory.WriteThenRead | internal/modbus/server.go:395-756 | a write and a read through the server give what a memory of the client's own would give for the two |
| Memory.WordsComeBack | internal/modbus/client.go:403-416 | words come back as written in either byte order, and other registers and all coils are unchanged |
| Memory.WideValuesComeBack | internal/modbus/client.go:431-500 | 32-bit and 64-bit values come back as written in every byte and word order, and other registers and all coils are unchanged |
| Memory.BytesComeBack | internal/modbus/client.go:873-919 | bytes come back as written, swapped or raw, odd numbers included, and other registers and all coils are unchanged |
| Memory.RegisterComesBack | internal/modbus/client.go:701-752 | a single register comes back as written in either byte order, and nothing else changes |
| Memory.CoilsComeBack | internal/modbus/client.go:620-698 | coils come back as written, and other coils and all registers are unchanged |

## Left out

- `internal/serial`: termios, `ioctl`, `select` and Windows handles are foreign calls.
- TLS handshakes, certificate pools and the extraction of client roles: library behaviour that cannot be seen. The client address and role that the handler is also given are constants of a connection, and not in the model.
- Dialling, URLs, configuration defaults and logging: a transport is taken as already open.
- Floating point values: they are bit reinterpretations over the 32-bit and 64-bit encodings, which are covered.
- Single-value methods of the client (`ReadCoil`, `ReadRegister`, `ReadUint32`, `WriteUint32` and the like): each wraps the list method of its kind.
- The client's lock: calls of one client are taken one after the other, as the lock makes them.
- Invalid settings of byte and word order: the types of the model have no others.
- The server side of RTU, which the repository does not implement, so that the end-to-end results are about MBAP.
- Retries of a failed bind after a stop: a failed bind leaves no listener, and an old acceptor that looks for one then would end the process; in the model it takes no further step.
- Scheduling and fairness: the results about the pool say what never happens, not what eventually does.
- `internal/energysource`, `pkg/energysource` and `cmd`: register polling, scaling and HTTP output over this stack.
- EndToEnd.Transparent: each request and its response are one round, as the client waits for the response before it goes on. Links that fail in between are covered by the results about the client, the server and stale responses one by one.
- Rtu.RtuTransport.ExecuteRequest: a deadline is one error that reading ends in; how long reading takes is arbitrary.
