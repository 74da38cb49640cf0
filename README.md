# nettest server connection, modelled in Dafny

nettest measures TCP throughput and latency between a client and a server.
A client connection on the server is served by two threads:

- The **connection handler** (`Connection::handle`) reads a stream of one-byte
  opcodes, each followed by a fixed-size payload that only its opcode decides:
  - opcode 0: 16 KiB of filler, which the handler discards;
  - opcode 1: an eight-byte big-endian duration in milliseconds, which the
    handler queues for the sender;
  - opcode 2: end of test, ignored by the server;
  - opcode 3: ping, answered with the byte 3;
  - opcode 255: disconnect;
  - anything else: ignored.
- The **sender** (`Connection::sender_runner`) takes durations off that
  queue in order. For each one it streams chunks until the duration has
  elapsed. A chunk is opcode 0 followed by 16 KiB of zeros. It then writes
  the end-of-test opcode 2.

The project has three modules:

- `Wire` (`wire.dfy`) covers the framing shared by both peers: the opcodes,
  `BUFFER_SIZE`, the big-endian `u64` codec, and reading one command off the
  front of the byte stream (`ParseCommand`). It also has the encoding a peer
  uses (`EncodeCommand`, `EncodeAll`), with round trips in both directions.
- `Handler` (`handler.dfy`) models the handler loop in two ways:
  - `Run`, a function over the unread bytes that states what one whole run
    does: its status, the bytes written back, the durations queued in order,
    and the bytes left unread;
  - `Connection`, a class with the stream cursor, the bytes written and the
    durations sent as fields. Its `Handle` method loops as the source does
    and is proved to do exactly what `Run` says.

  Lemmas relate `Run` to the commands a peer encodes, in both directions.
- `Sender` (`sender.dfy`) models the sender loop as a method over the queue
  and a clock trace. It is proved equal to `Transmission`, the concatenation
  of one block per request in queue order. Lemmas give:
  - the layout of each block;
  - that the output decodes, with the same framing, to data frames and one
    end-of-test per request;
  - FIFO order;
  - that a duration of 0 still gets one chunk.

The bytes the handler writes back (ping replies) and the bytes the sender
writes (chunks and end markers) go to the same socket from two threads. They
are modelled as two separate streams.

The wall clock is an input. For the request at queue position `i`,
`clock[i][j]` is the number of nanoseconds elapsed since the request was
dequeued, read after chunk `j` was flushed. The sender's exit test compares
whole elapsed milliseconds (integer division by 1 000 000) with the
requested duration, as the source does.

Two behaviours of the code that are easy to get wrong:
- A peer that just closes the stream, without sending opcode 255, makes
  `handle` return an `UnexpectedEof` error, not a clean `Ok`.
- The sender's "elapsed ≥ duration" test is on whole milliseconds, rounded
  down, so a request for `n` ms keeps sending until at least `n` full
  milliseconds have passed.

## Model

| member | source | states |
|---|---|---|
| Wire.PayloadLength | src/server.rs:85-100 | the opcode alone fixes the payload size: 16384 filler bytes for opcode 0 (`read_exact` into `sink`), 8 for opcode 1 (`read_u64`), none for any other opcode |
| Wire.DecodeU64 | src/server.rs:100 | `read_u64::<BigEndian>` on eight bytes, written out as the most-significant-byte-first sum; `DecodeU64IsBeDecode` and the two round-trip lemmas below state what it means |
| Wire.DecodeU64IsBeDecode | src/server.rs:100 | the eight-byte duration read is the most-significant-byte-first value of those bytes |
| Wire.DecodeEncodeU64 | src/server.rs:100 | reading back the eight big-endian bytes of any `u64` gives that value |
| Wire.EncodeDecodeU64 | src/server.rs:100 | any eight bytes are the big-endian encoding of the value read from them |
| Wire.BeDecodeEncode | src/server.rs:100 | big-endian decoding inverts encoding at any width that holds the value |
| Wire.BeEncodeDecode | src/server.rs:100 | big-endian encoding inverts decoding at any width |
| Wire.CommandOf | src/server.rs:85-112 | the command an opcode and its payload stand for is well formed and carries that opcode |
| Wire.EncodeCommand | src/server.rs:84-112 | a command's encoding is its opcode followed by exactly as many payload bytes as the reader takes for that opcode |
| Wire.ParseCommand | src/server.rs:84-100 | reading one command consumes at least the opcode byte |
| Wire.ParseLength | src/server.rs:84-100 | a read is short at the opcode exactly on empty input, and short in the payload exactly when fewer than 16384 (opcode 0) or 8 (opcode 1) bytes follow; otherwise exactly 1 + that many bytes are consumed |
| Wire.ParseEncoded | src/server.rs:84-112 | a well-formed command sent ahead of any bytes is read back as itself and the reader stops right after it |
| Wire.ParseIsEncoding | src/server.rs:84-112 | whatever the reader accepts is exactly the encoding of the command it returns: framing is unambiguous |
| Handler.Reply | src/server.rs:104-107 | the handler writes back something only for a ping, and then exactly the one byte 3 |
| Handler.Enqueued | src/server.rs:98-101 | the handler sends something to the sender only for a request, and then exactly its one duration |
| Handler.Run | src/server.rs:81-115 | each loop pass reads at least one byte, so the loop ends on any finite input; the unread remainder is shorter than the input or empty |
| Handler.DataStep | src/server.rs:86-87 | opcode 0 consumes 1 + 16384 bytes and changes nothing else; with fewer left the handler fails with an end-of-file error and reads everything |
| Handler.RequestStep | src/server.rs:98-102 | opcode 1 consumes 9 bytes, queues the big-endian value of the last eight ahead of later requests and writes nothing; with fewer left it fails |
| Handler.PingStep | src/server.rs:104-107 | opcode 3 consumes one byte and writes exactly the byte 3 ahead of later replies |
| Handler.IgnoredStep | src/server.rs:112 | opcode 2 (line 103) and every unknown opcode consume one byte and leave replies, queue and status to the rest of the input |
| Handler.DisconnectStep | src/server.rs:108-111 | opcode 255 returns `Ok` with nothing written or queued and every later byte unread |
| Handler.EofStep | src/server.rs:84 | end of input where an opcode is due fails with nothing done |
| Handler.Commands | src/server.rs:83-113 | the commands the loop acts on are well formed and include no disconnect |
| Handler.RunOneEncoded | src/server.rs:85-113 | an encoded command other than 255 followed by any bytes puts its reply and its queued duration ahead of those the bytes after it produce |
| Handler.RunEncoded | src/server.rs:83-113 | over encoded commands without a disconnect, the replies are the pings' answers and the queue is the requested durations, in order, followed by what the remaining input produces |
| Handler.RunUntilDisconnect | src/server.rs:108-111 | commands then 255 give `Ok`, their replies and durations, and leave every byte after the 255 unread |
| Handler.RunUntilEof | src/server.rs:84 | commands then end of stream fail at the next opcode read, after every command has been acted on |
| Handler.RunUntilShortRead | src/server.rs:86-100 | commands then a truncated payload fail with a short read, after the complete commands have been acted on |
| Handler.RunIsCommands | src/server.rs:81-115 | every input starts with the encodings of the commands the loop acts on; replies and queue are exactly theirs; the status is `Ok` if and only if the next byte is 255, and then everything after it is unread; otherwise all input is read |
| Handler.RunIgnoresLaterInput | src/server.rs:108-111 | after a run that returned `Ok`, appending bytes changes nothing but the unread remainder |
| Handler.Connection.constructor | src/server.rs:62-79 | a new connection has its cursor at the start, nothing written and nothing sent |
| Handler.Connection.ReadU8 | src/server.rs:84 | the next byte and the cursor one further, or none at end of stream |
| Handler.Connection.ReadExact | src/server.rs:87 | exactly the next n bytes and the cursor n further, or none when fewer are left |
| Handler.Connection.ReadU64 | src/server.rs:100 | the big-endian value of the next eight bytes and the cursor eight further, or none |
| Handler.Connection.WriteU8 | src/server.rs:106 | one byte appended to what the handler has written |
| Handler.Connection.Send | src/server.rs:101 | one duration appended to the queue |
| Handler.Connection.Dispatch | src/server.rs:84-113 | one pass of the loop either acts on exactly the command the reader frames (consuming it, writing its reply, queueing its duration) or ends the handler with a status such that the whole run from there is that status with nothing more done |
| Handler.Connection.Handle | src/server.rs:81-115 | the status, the bytes written, the durations queued and the cursor reached are exactly those of `Run` on the unread input |
| Handler.HandleConnection | src/server.rs:81-115 | on a fresh connection, the replies and the queue are those of the framed commands, and the status is `Ok` if and only if a 255 follows them |
| Sender.Zeros | src/server.rs:118 | the filler buffer holds only zero bytes, `BUFFER_SIZE` of them |
| Sender.Expired | src/server.rs:129-131 | the inner loop's exit test: elapsed nanoseconds divided by 1 000 000 (rounded down) are at least the requested milliseconds |
| Sender.ChunkCount | src/server.rs:124-133 | the number of chunks for a request is at least one; the last clock reading reaches the duration and no earlier one does |
| Sender.Transmission | src/server.rs:120-137 | everything the sender writes: for each request in queue order, its chunks and then one end marker; every request costs at least one chunk and the marker (16386 bytes) |
| Sender.SenderRunner | src/server.rs:117-140 | the sender loop writes exactly `Transmission` of the queue and clock, and then returns (the source's `Ok(())` once the queue is closed and drained) |
| Sender.AppendChunk | src/server.rs:125-126 | writing the data opcode and then the filler appends exactly one chunk |
| Sender.ZeroDurationOneChunk | src/server.rs:124-133 | a request for 0 ms still gets exactly one chunk before its end marker |
| Sender.ChunksZero | src/server.rs:124-134 | k chunks are k × 16385 bytes, all zero |
| Sender.BlockLayout | src/server.rs:124-135 | one request's answer is k × 16385 + 1 bytes, all zero except the last, which is opcode 2 |
| Sender.BlockFrames | src/server.rs:124-135 | one request's answer, read with the command framing, is k data commands and then one end-of-test command |
| Sender.TransmissionFrames | src/server.rs:120-137 | the sender's whole output is exactly the encoding of those commands, request after request |
| Sender.TransmissionAppend | src/server.rs:120-121 | requests are served first in, first out: the answer to one queue followed by another is the first answer followed by the second |
| Sender.EndMarkers | src/server.rs:120-137 | the output holds exactly one opcode 2 per request, and every other byte is zero |
| Sender.BlockCounts | src/server.rs:124-135 | one request's answer holds exactly one opcode 2, and every other byte is zero |

## Left out

- Listening, accepting and per-connection threads (`TestServer`, `new_connection`) are not part of this model. The handler and the sender are modelled each on its own, and the channel between them is the sequence of durations the handler sends.
- The interleaving on the shared socket of ping replies from the handler and chunks from the sender is not modelled: they are two separate output streams.
- The `should_mac` BLAKE2 block after opcode 0 is left out. Its only effect is an optional console line.
- Console logging (`println!`) is left out.
- Write errors and flush errors on the socket are left out: in the model, writes always succeed, so the sender always ends with `Ok(())`. `Sender.SenderRunner` therefore returns only the bytes written.
- A panic in `send(ms).unwrap()` when the sender thread has gone away is left out.
- Handler.Status: only the end of the stream is modelled as a read error. Other read failures, such as a connection reset, pass through `?` at src/server.rs:84, 87 and 100 in the same way; in the model a read that fails counts as the input ending at that point.
- Handler.Status: the two end-of-file cases (at an opcode, inside a payload) are the same `UnexpectedEof` I/O error in the source. The model labels which read came up short.
- Handler.Connection.ReadExact: after a short read the cursor is at the end of the input. The source leaves the amount consumed unspecified, and the handler stops there anyway.
- Sender.SenderRunner: requires every request's clock trace to reach its duration at some reading (`Paced`). A clock that never gets there, which would make the source send forever, is not modelled. The elapsed time is an unbounded natural, not a wrapping `u64`.
- The queue is the finite sequence of every duration the handler sent. Blocking on `recv`, and the disconnection that ends the sender once the queue is drained, are abstracted to the end of that sequence.
- `src/main.rs` is not part of this model: the command-line parsing, the client side (whose module is not available) and the formatting of speeds in floating point.
