# CoreSight wire protocol and streaming trace: a verified model

The repository lets a debugger on a host drive CoreSight hardware behind a small
server, and stream trace from it over USB.  This project models the two parts of it
that hold the most state, with the two small ones they rest on, and proves what
they are for.

**The wire protocol.**  A client encodes commands into a buffer, possibly many to a
batch, puts a header in front of them in place, and keeps a list of the responses it
expects.  A server decodes and dispatches the commands over a table of devices and
an implementation supplied by the target, and writes one response for each.  The
client decodes those against its list.

- `Wire`: the encodings on byte sequences.  `Buffer`: the array with a fill mark and
  a cursor that computes them in place.
- `Commands`, `Replies`: the client's encoders and the server's decoders, and the
  other way round, written separately as in the source and proved inverse.
- `Server`, `Handlers`, `Dispatch`, `Batch`: what a handler decides, which calls of the
  target's implementation it makes and what it makes of their answers, what it writes, and what a
  whole exchange does.  The main result is `Batch.BatchRefinement`: encoding, sending,
  dispatching, answering and decoding a batch is running its commands directly.
- `Requests`: what a batch buffer holds when some of its requests failed, and when the
  list of expected responses still describes it.
- `CommandServer`, `Client`: the server and client objects, proved against those.
- `DeviceTable`: the life of the device table across a session.
- `AccessBatch`: a small language of memory operations compiled into a batch.
  `AccessProgram`: an interpreter of that language over any memory, and the target's memory
  commands over the same one; `AccessProgram.ListRunsAsPerformed` and `ListServed` say that the list,
  compiled, sent and served, does what the interpreter does.  `WordBits`: bits of words and bytes.
- `Tcp`: message framing over short reads, short writes and interruptions.

**Streaming trace.**  Client buffers go from queued to pending to completed to
returned, moved along by a client thread and a data thread that share one lock and
drop it while they wait.  Below them one layer keeps a queue of USB tokens and the
next one its own queued, in-flight and completed transfers.

- `UsbDevice`: the transfer book-keeping, for any number of endpoints.
- `TraceSink`, `StreamingTrace`: the stretches of code that run under the lock, as
  functions and as methods of the object.
- `TraceSystem`: both threads and the device, interleaved at every point where the
  lock is free.  A run is any sequence of actions, and every theorem is over all runs.
- `Reattach`: what later attachments get after a Detach that left USB tokens behind.

`EnvMap` is the table of session handles.

## Conventions and assumptions

- A specification is a function on values; the object's method is proved equal to it,
  and the promises are lemmas about the function.  Reads of memory that the C code
  leaves undefined are results of their own (`UNDEFINED`, `Crash`, `Undefined`).
- `x << s` on a signed `int` wraps in two's complement, as GCC has it; a shift count
  past 31 is undefined.  Integers stored into `unsigned` or `uint64_t` are reduced.
  Where `|` joins fields that do not overlap it is written as a sum.
- The target's implementation is any function of the history of calls made to it; in `AccessProgram`
  it is one that reads, writes and polls a memory, which is itself any pair of functions.
  The texts it and the server format are parameters.  The client and the server are
  joined as in `cswp/tests/cswp_server_test.c`, by copying the message; `Tcp` is separate.
- For `TraceSystem`: one client thread, one attached sink, one data thread, one bulk
  endpoint whose transfers libusb completes in the order of submission; submissions
  succeed; libusb makes callbacks only while completeTransfer waits; no transfer on
  the interrupt control channel is outstanding.  SendStateEvent may come at any time,
  and either condition variable may wake spuriously.
- In `UsbDevice` none of this is assumed except that libusb names only endpoints of
  the device, and that one thread at a time is in completeTransfer.

## What was found

Where the code does less than it is for, the model keeps the code, and a lemma says
exactly when it does what it should.

- A varint survives the wire if and only if it is below 2^31 (`Wire.VarintRoundTrip`):
  the decoder shifts an `int`.  MEM-AP flags reach that limit when the ERR override
  asks for a value above one (`AccessBatch.FlagBounds`), and the PROT field loses its
  top bit (`AccessBatch.FlagsCarried`).
- Inside a batch a request that does not fit leaves a front piece of itself in the buffer,
  and a later one that fits goes behind it.  The list of expected responses describes the
  buffer if and only if no failed request left anything in front of one that is counted
  (`Requests.ListDescribesBuffer`, `Requests.AfterSuccess`), and a failed request leaves
  nothing if and only if there was no room for its identifier (`Requests.LeavesNothing`).
  A write cut off at its data takes the next command for its data
  (`Requests.WriteTakesTheNext`, with the smallest such batch in `Requests.SmallAfterBig`).
- An aborted batch is answered by one response more than its header says
  (`Batch.ResponseCount`; a batch of one is `Batch.AbortedClose`).  `BATCH_CONTINUE` is 1 and
  the server aborts on any mode but 0, so it aborts too.  A count of 2^32 or more, which a
  varint can carry, is never answered once a command has failed: the loop that cancels the
  rest does not end (`Batch.CancelNeverEnds`).
- A refusal carries the type of the command refused, except that six commands report a
  device that does not exist under the type of DEVICE_OPEN (`Dispatch.RefusalType`, and on
  any bytes `Dispatch.RefusalTypeOnBytes`).  The client reports those as a communication
  error (`Dispatch.CloseIsMisnamed`).
- A register write that is refused leaves the registers behind it unread
  (`Server.WriteRegsAgree`).
- SET_DEVICES renews the table before it reads the list.  If a name or type is longer than
  255 bytes or cut short, or the implementation refuses a device, the rows behind it stay
  empty, and GET_DEVICES reads through a null pointer.  It returns the list if and only if as
  many devices were stored as there are rows (`DeviceTable.DeviceListRoundTrip`, and for what
  a client sends `DeviceTable.EncodedListRoundTrip`); a long name is `DeviceTable.LongName`.
- `cswp_device_reg_write` ignores failed puts, so a command cut short is still counted
  (`Client.Client.RequestRegWrite`; the smallest is `Client.CutButCounted`).
- Completing MEM_READ or MEM_POLL copies from a pointer that was never set exactly when the
  count in the answer is more than the bytes left (`Replies.ShortData`; one such answer is
  `Replies.OneByteShort`).
- Ending a batch a second time sends it again: its commands run once more, and the client
  reports success with nothing completed (`Client.EndedAgain`).
- MEM_AP_AccessBatch sends what fits and reports success: the result of the encoder is
  overwritten by that of `cswp_batch_end`.  After a success with something sent, the count of
  completed operations is the number of operations if and only if the commands of all of them
  fit and no operation is unknown (`AccessBatch.MemAp.Run`); two operations of which one is
  done are `AccessBatch.OnlyTheFirstFits`.  If nothing was sent the caller's counter is only
  added to.
- A callback refills its endpoint's deque from the front of one shared queue.  A
  transfer for another endpoint that gets in there (`UsbDevice.RefillFiled`; a run that does
  it is `UsbDevice.MisfilingRun`) is in flight for good (`UsbDevice.MisfiledForever`), and
  the clean-up of Detach does not end (`StreamingTrace.CleanUpNeverEnds`).
- When libusb refuses a resubmission while nothing else is in flight, the rest of the queue
  is left behind: completeTransfer answers -1 while transfers are still pending
  (`UsbDevice.StrandedExactly`, `UsbDevice.RefillStrands`).
- Detach joins the data thread before it cancels anything, so it can wait for as long
  as the device stays silent (`TraceSystem.JoinNeedsDevice`, `TraceSystem.DetachCanHang`).
- If a transfer of another kind completes among the data transfers, Detach's drain loop
  stops there and leaves USB tokens behind (`StreamingTrace.DrainExact`); the request on
  the control channel does it (`Reattach.ControlTransferLeavesToken`).  Nothing clears
  them, so no later attachment delivers any data (`Reattach.NeverAgain`; from a fresh device
  `Reattach.FreshToNever`).

## Model

| member | source | states |
|---|---|---|
| Wire.VarintRoundTrip | cswp/cswp_buffer.c:86-180 | Decoding an encoded varint, whatever follows it, gives the value and stops behind it, if and only if the value is below 2^31 |
| Wire.VarintUndefined | cswp/cswp_buffer.c:164-180 | Decoding has no defined result exactly when a sixth byte follows five that announce more, and fails otherwise only where the bytes end |
| Wire.VarintSize | cswp/cswp_buffer.c:86-104 | A 64-bit value takes at most ten bytes, the space the client's header keeps for a count |
| Wire.LeRoundTrip | cswp/cswp_buffer.c:60-84 | A value below 256^n, little-endian in n bytes, reads back as itself |
| Wire.StringRoundTrip | cswp/cswp_buffer.c:106-196 | A string reads back when the reader's array keeps a byte for its terminator, and stops behind it |
| Buffer.PutAllExact | cswp/cswp_buffer.c:52-127 | An encoder succeeds exactly when its whole message fits, appends exactly that, and otherwise leaves a proper front piece of it |
| Buffer.CswpBuffer.PutVarint | cswp/cswp_buffer.c:86-104 | The two loops reserve and write the varint's bytes at the fill mark, or leave the buffer alone; cursor and mark stay together |
| Buffer.CswpBuffer.PutWord | cswp/cswp_buffer.c:60-84 | The shifted bytes are the little-endian word, all of them or none |
| Buffer.CswpBuffer.PutString | cswp/cswp_buffer.c:106-118 | Length and text; the length stays behind if only the text does not fit |
| Buffer.CswpBuffer.GetVarint | cswp/cswp_buffer.c:164-180 | The loop reads what the varint parser reads from the unread bytes and leaves what it leaves |
| Buffer.CswpBuffer.GetWord | cswp/cswp_buffer.c:136-162 | The same for words |
| Buffer.CswpBuffer.GetString | cswp/cswp_buffer.c:182-196 | The same for strings, with the reader's limit |
| Buffer.CswpBuffer.Inject | cswp/client/cswp_client.c:233-256 | Overwriting inside the written bytes changes those bytes and no others |
| Commands.CommandRoundTrip | cswp/client/cswp_client_commands.c:26-393 | For every command decoded in one go, the server's decoder gives back the command that the client encoded and stops where the next starts |
| Server.AddDevicesAgree | cswp/server/cswp_server_cmdint.c:138-193 | Storing devices while decoding them ends as storing the decoded list, and reads exactly its bytes if all are stored |
| Server.ReadRegsAgree | cswp/server/cswp_server_cmdint.c:487-540 | The same for reading registers |
| Server.WriteRegsAgree | cswp/server/cswp_server_cmdint.c:542-595 | The same for writing registers; after one is refused the cursor stands behind it and the rest are unread |
| Server.DecideExec | cswp/server/cswp_server_cmdint.c:769-876 | An encoded command that is dispatched makes the same calls, state and result as running it (what those are is in the rows of `Handlers`), and after a success the cursor has moved by exactly its length |
| Handlers.OneCall | cswp/server/cswp_server_cmdint.c:234-766 | A command on a device makes its one call of the implementation, with its own arguments, if that is offered, and no other; it succeeds exactly if the call does (a missing open or close hook counts as success, another missing function is unsupported), a refusal carries the call's own code, a reply what it answered, cut or padded to its array; only opening and closing touch the table, and only the device's register list |
| Handlers.NoDevice | cswp/server/cswp_server_cmdint.c:234-766 | A device that does not exist: no call, no change, INVALID_DEVICE |
| Handlers.SessionCalls | cswp/server/cswp_server_cmdint.c:67-232 | What INIT, TERM, CLIENT_INFO and GET_SYSTEM_DESCRIPTION call, reply and leave of the table |
| Handlers.ListsRows | cswp/server/cswp_server_cmdint.c:196-208 | GET_DEVICES gives name and type of every row in order, and has no defined behaviour exactly if one is missing |
| Handlers.RegListCall | cswp/server/cswp_server_cmdint.c:439-484 | The register list is rebuilt if that is offered, whatever code it returns, and what the row then holds is the reply |
| Handlers.RegisterCalls | cswp/server/cswp_server_cmdint.c:487-595 | One call for each register in order up to the first that is refused, which is the last made and whose code is the reply's; else the words answered, in order |
| Handlers.AddDevicesCalls | cswp/server/cswp_server_cmdint.c:138-193 | Each device is stored in its row and told to the hook, in order, up to the first without a row or refused, whose code is the reply's; no other row changes |
| Handlers.SetDevicesCalls | cswp/server/cswp_server_impl.c:54-102 | SET_DEVICES calls the two hooks that renew the table, gives it one empty row for each device counted, and fills it so |
| Handlers.RefusalReads | cswp/server/cswp_server_cmdint.c:38-64 | An error response is its type, its code, and the formatted text cut to the server's array |
| Replies.ReplyRoundTrip | cswp/server/cswp_server_commands.c:58-413 | Every completion function gives back the reply that the server encoded, if the caller's buffers hold it, and stops where the next response starts |
| Replies.TooMuch | cswp/client/cswp_client.c:519-1003 | On any bytes, a device list, description, register list or register read that announces more than the caller has room for is an overflow |
| Replies.CompletedFits | cswp/client/cswp_client.c:358-1003 | On any bytes, an answer that completes its entry is of the entry's kind, holds exactly as many entries as it announces, and they and their texts fit the caller's arrays |
| Replies.DataIsThere | cswp/client/cswp_client.c:600-1178 | On any bytes, registers, a description and memory data complete exactly if what is announced is there and fits (memory data is not checked for room), and are then those bytes, the registers as little-endian words |
| Replies.TextAgainstRoom | cswp/client/cswp_client.c:665-760 | A text of any length arrives if it fits with its terminator, is dropped if the caller has no array for a description, and is an overflow otherwise |
| Replies.ShortData | cswp/client/cswp_client.c:1079-1178 | A successful memory reply of the right type has no defined result exactly when its count exceeds the bytes left, or is itself undefined |
| Replies.OneByteShort | cswp/client/cswp_client.c:1079-1096 | Two bytes announced and one sent |
| Dispatch.DecisionShape | cswp/server/cswp_server_cmdint.c:67-766 | Whatever the bytes, a success carries a reply of the command's own kind and a refusal a code that is not success |
| Dispatch.RefusalType | cswp/server/cswp_server_cmdint.c:234-766 | A refusal carries another type than the command's exactly when one of six commands names a device that does not exist |
| Dispatch.RefusalTypeOnBytes | cswp/server/cswp_server_cmdint.c:769-876 | The same for whatever stands at the cursor, if enough of it can be read to name the device |
| Dispatch.CloseIsMisnamed | cswp/server/cswp_server_cmdint.c:276-313 | Closing a device that does not exist is refused as an opening, and the client reports a communication error |
| Dispatch.ClientReports | cswp/client/cswp_client.c:189-217 | The client reports a refusal by its own code, except COMMS exactly where one of six commands names a device that does not exist |
| Dispatch.UnknownCommand | cswp/server/cswp_server_cmdint.c:769-854 | A number that no command has is refused under that number as unsupported; nothing else is read or done |
| Dispatch.Malformed | cswp/server/cswp_server_cmdint.c:67-766 | A command whose arguments cannot be decoded is refused under its number with a decoder's code, and nothing is called or changed |
| Dispatch.AnyRoom | cswp/server/cswp_server_cmdint.c:38-64 | On any bytes and with any room left: success exactly if the handler succeeds and the whole reply fits; a reply that does not fit leaves a proper front piece, the code BUFFER_FULL and as much of the error response as fits; a refusal keeps its code and is written as far as it fits |
| Dispatch.OneResponse | cswp/server/cswp_server_cmdint.c:38-64 | On any bytes, with room for it, handling one command appends exactly one response, which the client's decoder reads whole: the reply of a success, or the handler's own code |
| Batch.HandleExec | cswp/server/cswp_server_cmdint.c:857-876 | One encoded command through the whole handler: the state of running it, its response appended, and its code |
| Batch.ServeDirect | target/cswp_server/cswp_server.c:299-306 | The server's loop over an encoded batch runs its commands in order up to the first that is refused and appends exactly their responses |
| Batch.TakeDirect | cswp/client/cswp_client.c:189-217 | The client's loop over those responses gives the i-th result to the i-th completion and stops at the refused one |
| Batch.LongestRun | cswp/client/cswp_client.c:189-217 | On any bytes the completed entries are the longest run of responses that match in type, carry success and can be stored, each read where the one before ended; the code is that of the next failure, or success if there is none |
| Batch.ReceivedRun | cswp/client/cswp_client.c:258-311 | The same for a whole response, of which nothing is completed if its length or its count is wrong or cannot be read |
| Batch.BatchRefinement | cswp/client/cswp_client.c:222-311 | A batch that is encoded, sent, dispatched, answered and decoded leaves the server as running its commands directly does, and the client with their results up to the first refused, counted |
| Batch.ResponseCount | target/cswp_server/cswp_server.c:291-315 | The response holds as many replies as it says, except that an aborted batch's holds one more |
| Batch.CancelNeverEnds | target/cswp_server/cswp_server.c:299-315 | With a count of 2^32 or more, aborting, there is no response if and only if a command fails |
| Batch.AbortedClose | target/cswp_server/cswp_server.c:291-315 | A batch of one that closes a device that does not exist is answered by its refusal and a cancelled reply |
| Batch.CancelledRead | target/cswp_server/cswp_server.c:308-315 | A cancelled reply is read as type 0 and code CANCELLED with its text, and completes no entry |
| DeviceTable.WireKeepsTable | cswp/server/cswp_server_cmdint.c:769-876 | Whatever stands at the cursor, but INIT, TERM and SET_DEVICES, leaves names and types alone |
| DeviceTable.ExecKeepsTable | cswp/server/cswp_server_impl.c:54-102 | The same for a decoded command |
| DeviceTable.WireFills | cswp/server/cswp_server_cmdint.c:138-193 | SET_DEVICES stores the devices it could read, in order, up to the first that cannot be read, has no row or is refused |
| DeviceTable.DeviceListRoundTrip | cswp/server/cswp_server_cmdint.c:138-208 | On any bytes behind SET_DEVICES, and after any later bytes without another one, INIT or TERM, GET_DEVICES returns what was read, if and only if as many devices were stored as the count, as an `unsigned`, gave rows; else it has no defined behaviour |
| DeviceTable.EncodedListRoundTrip | cswp/client/cswp_client_commands.c:102-117 | For a list that a client encodes, that is if and only if no name or type takes more than 255 bytes and no device but the last is refused |
| DeviceTable.LongName | cswp/server/cswp_server_cmdint.c:158-171 | One device with a name of 256 bytes or more: refused, and GET_DEVICES meets a null string |
| DeviceTable.ClientGetsList | cswp/client/cswp_client.c:478-549 | From the served frame of SET_DEVICES, through any session, to the served frame of GET_DEVICES: the client decodes the list that was sent, in order |
| CommandServer.CommandServer.InitDevices | cswp/server/cswp_server_impl.c:77-87 | All three tables are renewed with the count, as an `unsigned`, so they keep its length in every state |
| CommandServer.CommandServer.SetDevice | cswp/server/cswp_server_impl.c:89-102 | Name and type are stored in the row, no other changes, and the hook's answer is returned |
| CommandServer.CommandServer.AddDevices | cswp/server/cswp_server_cmdint.c:138-193 | The decoding loop does to the object and the cursor what the specification does to values |
| CommandServer.CommandServer.Handle | cswp/server/cswp_server_cmdint.c:857-876 | One command handled in place: state, unread bytes, response bytes and code are those of the specification, which `Dispatch.AnyRoom` describes |
| CommandServer.CommandServer.ServeAll | target/cswp_server/cswp_server.c:299-306 | The loop over a request's commands |
| CommandServer.CommandServer.Process | target/cswp_server/cswp_server.c:230-343 | A whole request: header, loop, cancelled responses, and the length patched into the front; no response where the header is cut short or the cancelling loop does not end |
| Client.Client.PrepareCmd | cswp/client/cswp_client.c:169-183 | Outside a batch buffer, list and count are reset; inside one nothing changes |
| Requests.ListDescribesBuffer | cswp/client/cswp_client.c:96-183 | The pending list describes the buffer if and only if no failed request left bytes in front of a counted one |
| Requests.AfterSuccess | cswp/client/cswp_client.c:96-183 | After one more request that fits the buffer is the commands counted if and only if no request that failed before left anything |
| Requests.LeavesNothing | cswp/client/cswp_client_commands.c:26-35 | A failed encoder leaves nothing if and only if the room is less than the command's identifier takes |
| Requests.WriteTakesTheNext | cswp/client/cswp_client_commands.c:349-367 | A write that runs out of room at its data, and a short command behind it: the server answers the write, BUFFER_EMPTY, and the client, who expects the other, reports a communication error |
| Requests.SmallAfterBig | cswp/client/cswp_client_commands.c:349-367 | The smallest such batch, with its fifteen bytes |
| Client.Client.Request | cswp/client/cswp_client.c:96-118 | A request is appended to buffer, list and count together if it fits; if not, list and count stay and a proper front piece of it is left in the buffer, none exactly when its identifier does not fit; also after requests that failed |
| Client.Client.PushRequest | cswp/client/cswp_client.c:96-118 | List and count grow together, in encoding order |
| Client.Client.RequestRegWrite | cswp/client/cswp_client.c:1038-1063 | Register writes count as soon as their header fits; what they leave is the whole command exactly when all of it fits |
| Client.Client.BatchBegin | cswp/client/cswp_client.c:430-443 | Opens a batch on an empty buffer, or goes on with the one that is open |
| Client.Client.WriteHeader | cswp/client/cswp_client.c:233-256 | The header written in place against the body is the concatenation of length, count, mode and body, contiguous, with the length of what is sent |
| Client.Client.Absorb | cswp/client/cswp_client.c:258-311 | Operations completed, results and code are those of the longest run (`Batch.ReceivedRun`); the list is empty afterwards |
| Client.Client.Exchange | cswp/client/cswp_client.c:222-311 | Whatever the buffer holds, server and client end as serving its frame says; if the list describes the buffer and everything fits, as running the commands directly |
| Client.Client.BatchEnd | cswp/client/cswp_client.c:446-458 | The same, with the count stored; with nothing encoded there is no exchange and the caller's count is not written; at any time, also when the batch has already been ended |
| Client.EndedAgain | cswp/client/cswp_client.c:446-458 | A second end completes nothing; a batch that is delivered runs once more and is reported as a success |
| Client.LooseExact | cswp/client/cswp_client.c:1052-1056 | Unchecked puts write the whole message if it fits and otherwise less than it |
| Client.CutButCounted | cswp/client/cswp_client.c:1038-1063 | One register, and room for the header and two bytes: counted, its value missing |
| AccessBatch.EveryOperation | rddi-memap_cswp/env.cpp:632-730 | Each operation is counted once: as a command, as a local one, or, with an unknown code, not at all |
| AccessBatch.MaskIsLatest | rddi-memap_cswp/env.cpp:677-681 | The mask of a poll or check is that of the last operation before it that set one, or all ones |
| AccessBatch.ValueIsLatest | rddi-memap_cswp/env.cpp:683-687 | The value likewise, or zero |
| AccessBatch.FlagBounds | rddi-memap_cswp/env.cpp:250-269 | The mapped flags are below 2^31 unless ERR is overridden with a value above one |
| AccessBatch.FlagsCarried | rddi-memap_cswp/env.cpp:250-269 | Each overridden field arrives in its place, PROT without its top bit, with its mark; the others are zero and unmarked, and the eight lowest bits are free |
| AccessProgram.PlaceNamed | rddi-memap_cswp/env.cpp:241-269 | Address, access size and flags of a command name the place that the operation means: base plus offset modulo 2^64, its width in bits, its overrides, and whether the address stays |
| AccessProgram.AccessFields | rddi-memap_cswp/env.cpp:641-675 | Writes and reads, field by field: direction, place, the no-increment mark exactly for the repeated ones, the count in bytes, the data |
| AccessProgram.PollFields | rddi-memap_cswp/env.cpp:689-729 | Polls and checks, field by field: the not-equal mark exactly for POLL_NE and CHECK_NE, the check-last mark exactly for the checks, tries, mask and value in force, little-endian |
| AccessProgram.PayloadIs | rddi-memap_cswp/env.cpp:641-656 | What a write sends: the bytes its pointer names, or the low bytes of its own data field |
| AccessProgram.MatchIsEqual | target/cswp_server/cswp_impl.c:1437-1475 | Comparing four masked bytes is comparing the masked 32-bit words |
| AccessProgram.LoopIsAwait | target/cswp_server/cswp_impl.c:1437-1478 | The poll loop on bytes reads until the word equals, or differs, and no longer |
| AccessProgram.ExecIsPerform | rddi/rddi_mem_ap.h:42-68 | Running the command of one operation on a server that drives a memory does to the memory, and replies, what the operation does and reads by itself |
| AccessProgram.ListRunsAsPerformed | rddi/rddi_mem_ap.h:42-68 | For every list, memory and state: the compiled list, run on the server, leaves the memory and returns what its operations do in order, each poll and check with the mask and value last set, stopping with the code of the first that fails |
| AccessProgram.ListServed | rddi-memap_cswp/env.cpp:605-741 | From end to end: encoded, sent, served and decoded, a list that gets through leaves the memory, and gives the client, exactly that; success exactly if no operation fails |
| AccessBatch.CompiledPortable | rddi-memap_cswp/env.cpp:632-730 | The compiled commands survive the wire exactly when each wire operation's numbers are small |
| AccessBatch.GoesThroughWhen | rddi-memap_cswp/env.cpp:605-741 | When a compiled batch gets through, as a condition on the operations, the room and the answers |
| AccessBatch.MemAp.CompileOne | rddi-memap_cswp/env.cpp:634-729 | One operation adds the command it means (`AccessProgram.AccessFields`, `AccessProgram.PollFields`), with the poll state in force, or changes that state; it stops the loop exactly when the command does not fit |
| AccessBatch.MemAp.CompileAll | rddi-memap_cswp/env.cpp:626-730 | The batch holds exactly the commands of the operations up to the first that does not fit |
| AccessBatch.HandledAll | rddi-memap_cswp/env.cpp:632-741 | All operations are handled if and only if the commands of all fit; then all are counted unless some are unknown |
| AccessBatch.AnsweredAll | cswp/client/cswp_client.c:275-308 | Whatever the answer, success means that every command was completed |
| AccessBatch.MemAp.Run | rddi-memap_cswp/env.cpp:605-741 | State, code and count are those of serving the compiled batch; after a success with something sent the count is the number of operations if and only if all commands fit and no operation is unknown; if the batch gets through the server ends as if the commands had been run directly, and success means none was refused |
| AccessBatch.OnlyTheFirstFits | rddi-memap_cswp/env.cpp:632-741 | Two reads and room for one: success, and one of two operations done |
| Tcp.FrameExact | common_tcp/common_tcp.c:72-94 | A self-describing message is read whole, with the stream at the next one, if and only if the reader has room for it |
| Tcp.ReadBack | common_tcp/common_tcp.c:72-117 | Messages back to back in a stream are the same list, with the stream at a message boundary |
| Tcp.Relay | common_tcp/common_tcp.c:47-117 | A list written by one end is read by the other as the same list, whatever the sizes of single writes and reads and however often either is interrupted, and nothing is left over |
| Tcp.FramesDescribeThemselves | cswp/client/cswp_client.c:233-256 | What client and server send are such messages |
| Tcp.Socket.ReadN | common_tcp/common_tcp.c:47-70 | However reads are cut up or interrupted, the bytes asked for, or all there are |
| Tcp.Socket.ReadMessage | common_tcp/common_tcp.c:72-94 | The next message of the stream, independent of the chunks; 0 exactly when the peer closes before the bytes announced, as far as there is room for them, are there; -1 only if a read fails |
| Tcp.Socket.WriteMessage | common_tcp/common_tcp.c:96-117 | The whole message is sent, or an error is returned after a proper front piece of it |
| UsbDevice.EachTokenOnce | usb_client/usb_device_linux.cpp:442-490 | Over every run each token is in exactly one of queued, one in-flight deque, completed, returned, dropped, refused; the counter is the sum of the deques, none over the cap |
| UsbDevice.CompleteBooks | usb_client/usb_device_linux.cpp:339-375 | completeTransfer keeps the books, and answers -1 exactly when nothing was in flight or completed at entry |
| UsbDevice.BooksCallback | usb_client/usb_device_linux.cpp:531-569 | So does any callback, with any number of resubmissions refused |
| UsbDevice.SubmitTakes | usb_client/usb_device_linux.cpp:442-526 | A submission is taken exactly for a bulk or interrupt endpoint, of the direction asked for, for at most 32768 bytes: in flight if fewer than 32 are and libusb accepts, queued if 32 are; anything else is refused, its token spent |
| UsbDevice.LandMoves | usb_client/usb_device_linux.cpp:531-552 | A callback completes the transfer with its token, with the status and length of libusb, and leaves the others in order; an unknown token completes nothing |
| UsbDevice.RefillMoves | usb_client/usb_device_linux.cpp:555-568 | The refill moves transfers from the front of the queue to the end of the deque, in order, until one is empty or the other full or libusb refuses one |
| UsbDevice.CancelsAll | usb_client/usb_device_linux.cpp:295-321 | Everything in flight is asked to cancel, everything queued completes with status CANCELLED, in order |
| UsbDevice.RefillFiled | usb_client/usb_device_linux.cpp:555-568 | A callback files every transfer under its own endpoint exactly when all it moves out of the queue are for the endpoint that called back |
| UsbDevice.MisfiledForever | usb_client/usb_device_linux.cpp:531-569 | Over every run in which libusb calls back with a transfer's own endpoint, such a transfer stays in the same deque, counted and never handed back |
| UsbDevice.MisfilingRun | usb_client/usb_device_linux.cpp:470-569 | A run from a fresh device that misfiles one: a full deque, one more queued, a callback for another endpoint |
| UsbDevice.StrandedExactly | usb_client/usb_device_linux.cpp:288-375 | completeTransfer answers -1 with transfers still pending exactly when all that is left is in the queue |
| UsbDevice.RefillStrands | usb_client/usb_device_linux.cpp:555-568 | A callback that leaves its deque empty with a queue behind it is one whose first resubmission is refused with more than that one queued |
| UsbDevice.StrandedStays | usb_client/usb_device_linux.cpp:339-375 | No further completeTransfer gets such a queue going again |
| UsbDevice.CancelOrder | usb_client/usb_device_linux.cpp:295-321 | Cancelling keeps the order of completion exactly when the queue or the flight is empty |
| UsbDevice.UsbDeviceLinux.SubmitTransfer | usb_client/usb_device_linux.cpp:442-490 | The new transfer goes in flight, or into the queue at the cap, or is refused, its token spent |
| UsbDevice.UsbDeviceLinux.CancelTransfers | usb_client/usb_device_linux.cpp:295-321 | Everything in flight is asked to cancel, everything queued completes as cancelled, in order |
| UsbDevice.UsbDeviceLinux.TransferComplete | usb_client/usb_device_linux.cpp:531-569 | The transfer moves to completed and the deque is refilled up to the cap or the first refusal |
| UsbDevice.UsbDeviceLinux.CompleteTransfer | usb_client/usb_device_linux.cpp:339-375 | The wait loop and the front of the completed queue |
| TraceSink.SubmitAllKeeps | rddi_streaming_trace/common/streaming_trace_base.cpp:429-448 | submitBuffers fills the device to its limit or empties the queue, keeps the order and the lock-step of both layers, and wakes the data thread if it added anything |
| TraceSink.DeviceStep | usb_client/usb_device_linux.cpp:531-569 | The completion of the oldest transfer moves it from flight to completed and keeps the lock-step |
| TraceSink.AbsorbStep | rddi_streaming_trace/rddi_streaming_trace_amis/streaming_trace_usb.cpp:88-134 | The transfer that completed is the one the front token waits for and filled the front buffer; that is marked as an error if the transfer failed and else as data, with the transfer's length if it succeeded and else 0 |
| TraceSink.EventInOldest | rddi_streaming_trace/common/streaming_trace_base.cpp:404-418 | An event leaves its kind in the oldest event buffer, changes no other buffer, and is lost without one |
| TraceSink.EventsReturned | rddi_streaming_trace/common/streaming_trace_base.cpp:343-355 | Stop gives every event buffer back, of no type and empty, in order, and changes no other |
| TraceSink.BufferAccepted | rddi_streaming_trace/common/streaming_trace_base.cpp:177-221 | What is accepted, refused and with which token or code; the buffer is emptied and no other changed |
| TraceSink.StartedOrNot | rddi_streaming_trace/common/streaming_trace_base.cpp:298-362 | Start is refused exactly while detached, Stop exactly unless active, each with its code and without effect; no buffer is lost either way |
| StreamingTrace.StreamingTrace.SubmitBuffers | rddi_streaming_trace/common/streaming_trace_base.cpp:429-448 | The loop, over the USB object |
| StreamingTrace.StreamingTrace.SubmitEventBuffer | rddi_streaming_trace/common/streaming_trace_base.cpp:177-221 | Refused while detached; else a token, an emptied buffer, and a place at the end of its queue; a bad type spends a token |
| StreamingTrace.StreamingTrace.StartSink | rddi_streaming_trace/common/streaming_trace_base.cpp:298-318 | Active, and as much as fits submitted, also when the device then refuses to start and an exception is raised |
| StreamingTrace.StreamingTrace.StopSink | rddi_streaming_trace/common/streaming_trace_base.cpp:327-362 | Attached, transfers cancelled, every event buffer completed empty and in order, the client woken |
| StreamingTrace.StreamingTrace.SendStateEvent | rddi_streaming_trace/common/streaming_trace_base.cpp:404-418 | The oldest event buffer completes with the type |
| StreamingTrace.StreamingTrace.AbsorbTransfer | rddi_streaming_trace/rddi_streaming_trace_amis/streaming_trace_usb.cpp:96-134 | If the token matches it is popped and the buffer gets ERROR or DATA by status, and the length of a success; else nothing changes |
| StreamingTrace.StreamingTrace.DeliverBuffer | rddi_streaming_trace/common/streaming_trace_base.cpp:277-295 | The front buffer leaves the pending list, the next is submitted, the token completes, the client is woken |
| StreamingTrace.StreamingTrace.TakeEvent | rddi_streaming_trace/common/streaming_trace_base.cpp:240-245 | The end of WaitForEvent: the oldest completed token, or a timeout if there is none |
| StreamingTrace.StreamingTrace.DrainPending | rddi_streaming_trace/common/streaming_trace_base.cpp:154-161 | Detach's drain loop, with the number of transfers it took |
| StreamingTrace.StreamingTrace.FinishDetach | rddi_streaming_trace/common/streaming_trace_base.cpp:151-167 | Cancel, drain, clean up the device, clear the lists |
| StreamingTrace.StreamingTrace.CleanUp | rddi_streaming_trace/rddi_streaming_trace_amis/streaming_trace_amis.cpp:285-295 | The loop of detachDevice until no transfer is outstanding |
| StreamingTrace.DrainExact | rddi_streaming_trace/common/streaming_trace_base.cpp:154-161 | In any state of the device the drain loop pops exactly the tokens that completeTransfer hands over in their order, and ends early at the first that is another |
| StreamingTrace.CleanUpNeverEnds | rddi_streaming_trace/rddi_streaming_trace_amis/streaming_trace_amis.cpp:285-295 | With a misfiled transfer outstanding detachDevice's loop does not end, whatever libusb completes |
| Reattach.ControlTransferLeavesToken | rddi_streaming_trace/rddi_streaming_trace_amis/streaming_trace_amis.cpp:335-374 | With the control channel's request completed first, Detach ends with the buffer's token left behind |
| Reattach.NothingDelivered | rddi_streaming_trace/rddi_streaming_trace_amis/streaming_trace_usb.cpp:94-134 | With a stale token in front no data buffer is delivered in any run, through any number of attachments |
| Reattach.NeverAgain | rddi_streaming_trace/common/streaming_trace_base.cpp:103-168 | That is the state after a Detach that emptied the device but not the tokens |
| Reattach.FreshToNever | rddi_streaming_trace/common/streaming_trace_base.cpp:103-168 | From a fresh device: attach, give a buffer, start, detach with the control request completed first, attach again; no data is delivered in any run from there |
| TraceSystem.SoundStep | rddi_streaming_trace/common/streaming_trace_base.cpp:128-448 | Every step of either thread or the device keeps the lock-step, no lost wake-up, work conservation and the threads' control points |
| TraceSystem.LedgerStep | rddi_streaming_trace/common/streaming_trace_base.cpp:128-448 | Every step keeps every ticket in exactly one place and all of them in order |
| TraceSystem.ChronicleStep | rddi_streaming_trace/common/streaming_trace_base.cpp:103-448 | Every step keeps the record of all attachments |
| TraceSystem.ExactlyOnceInOrder | rddi_streaming_trace/common/streaming_trace_base.cpp:177-295 | In every run, over all its attachments, the tickets ever accepted are those completed and thrown away in each earlier attachment and those completed, thrown away, pending and queued in this one, in order and without repetition; what WaitForEvent returns is the completed ones in that order; data and events each |
| TraceSystem.LockStep | rddi_streaming_trace/rddi_streaming_trace_amis/streaming_trace_usb.cpp:71-134 | In every run, whenever the lock is free, the i-th USB token is the transfer into the i-th pending buffer's memory |
| TraceSystem.RightBuffer | rddi_streaming_trace/rddi_streaming_trace_amis/streaming_trace_usb.cpp:88-134 | In every run, the buffer a transfer filled is marked as an error exactly if the transfer failed and else as data, with its length exactly if it succeeded and else 0; no other buffer changes, and the front token is popped |
| TraceSystem.NothingQueuedBelow | usb_client/usb_device_linux.cpp:470-487 | In every run the device's queue is empty and cancelling reorders nothing |
| TraceSystem.NoLostWakeup | rddi_streaming_trace/common/streaming_trace_base.cpp:235-295 | In every run, a thread that sleeps unnotified has nothing to wake for; an active sink has the limit pending or nothing queued; never more than the limit |
| TraceSystem.HaltCancels | rddi_streaming_trace/common/streaming_trace_base.cpp:340-359 | Stop has libusb told to cancel all it holds and completes every event buffer in order |
| TraceSystem.StoppedMoves | rddi_streaming_trace/common/streaming_trace_base.cpp:343-362 | While a stopped sink has buffers pending, the data thread or the device can move; after Stop the device's move is one it was told to make |
| TraceSystem.StopReturns | rddi_streaming_trace/common/streaming_trace_base.cpp:327-362 | In any interleaving a stopped sink gives back, in a bounded number of moves, exactly the data buffers that were pending, in order |
| TraceSystem.DetachDescends | rddi_streaming_trace/common/streaming_trace_base.cpp:128-168 | While Detach runs, every move of any thread or the device brings it nearer its end |
| TraceSystem.DetachMoves | rddi_streaming_trace/common/streaming_trace_base.cpp:128-168 | While Detach runs some move is always possible; in the drain loop the device's is one it was told to make |
| TraceSystem.DetachDrains | rddi_streaming_trace/common/streaming_trace_base.cpp:151-167 | Detach takes a bounded number of moves in any interleaving and leaves every list, the USB tokens and the device empty |
| TraceSystem.JoinNeedsDevice | rddi_streaming_trace/common/streaming_trace_base.cpp:139-149 | While Detach joins, only the device can move things on, exactly when the data thread is in libusb with nothing completed |
| TraceSystem.DetachCanHang | rddi_streaming_trace/common/streaming_trace_base.cpp:139-152 | Such a state, with nothing cancelled, is six steps from the start |
| EnvMap.StoreLeast | rddi-memap_cswp/env_map.cpp:39-60 | Store takes the least handle not in use and adds that entry only; it refuses exactly when every handle below the largest integer is taken |
| EnvMap.RemoveOne | rddi-memap_cswp/env_map.cpp:62-70 | Remove takes out the one entry, or refuses an unknown handle and changes nothing |
| EnvMap.HandlesBelowPeak | rddi-memap_cswp/env_map.cpp:39-70 | Over every run live handles are distinct and below the peak number of sessions open at once |
| EnvMap.EnvironmentMap.Lookup | rddi-memap_cswp/env_map.cpp:29-37 | The entry's environment, or a refusal exactly when there is none |
| EnvMap.EnvironmentMap.Store | rddi-memap_cswp/env_map.cpp:39-60 | The search for the first gap and the insertion there |
| EnvMap.EnvironmentMap.Remove | rddi-memap_cswp/env_map.cpp:62-70 | The removal on the object |

## Left out

- Interrupt control channel: the trace system has none outstanding; `StreamingTrace.DrainExact` says what one does to Detach, and `UsbDevice` covers several endpoints by itself.
- Several sinks, Attach twice without Detach, Disconnect while the data thread waits: the source has one data thread and no wake-up there.
- TraceSystem.DetachDrains: like `TraceSystem.StopReturns` it counts moves and says that one is always possible; that a thread which can move eventually does, and that libusb completes what it was told to cancel, are assumptions about the scheduler and the device.
- AccessBatch.MemAp.Run: says that the outcome is that of running the commands only for a batch that gets through (`AccessBatch.GoesThroughWhen` says when that is); otherwise it is what the server makes of the frame and the client of the answer.
- The checks the target makes before it touches memory (a path and type for the device, device 0 only), and how it splits a read into accesses: `AccessProgram` takes one read or write of the memory as one step, which may fail.
- AccessBatch.Payload: an operation whose data pointer holds fewer bytes than it writes reads past them in the original; the model sends what there is.
- Commands.CommandRoundTrip: SET_DEVICES, REG_READ and REG_WRITE are decoded while they act; `Server.DecideExec` covers them.
- Client.Client.Exchange: transport failures; the message and its answer are copied whole.
- Replies.ParseBlob: a poll without a buffer does not copy, so a short answer to it is no fault in the original; the size of the caller's buffer, which the original does not check against the answer.
- The server's own init hook (target/cswp_server/cswp_impl.c:238-300) fills the device table and the system description through the state it is given; the hooks of the model answer with a code, and the table after INIT is empty.
- The error text a refusal carries, as it is copied into the client's errorMsg; asynchronous messages.
- cswp_get_optional_string moves its cursor past the end on a length that is too large; the model stops there with an undefined result.
- The string buffer that cswp_device_reg_list fills, and stale register lists after DEVICE_CLOSE.
- A failed malloc, `int` tokens past 2^31, real-time deadlines (a timed wait may end at any time).
- Discovery, descriptors, configuration files, logging, Windows code and the capture program: input and output.
- The other MEM_AP functions and the RDDI forwarding layers: each is one call of those modelled.
