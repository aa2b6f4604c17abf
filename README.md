# retlsfetch record log, in Dafny

retlsfetch fetches a URL over HTTPS once against the real network while it
records every nondeterministic input the TLS and HTTP stack consumes. Those
inputs are the clock, the TLS randomness, the TLS key log, the outcome and
addresses of each dial, every byte read from and written to each socket, and
the response body. It can then replay the same exchange from that recording,
with no network. The recording is a **record log**: an ordered sequence of
`(tag, payload)` byte records.

This project models the core that acts on the record log:

- **Recorder** (module `Recorder`, from saver.go and logconn.go). The class
  `Saver` appends records: at creation, from the TLS hooks (clock,
  randomness, key log), from the TLS dial, and from the body loop of `Get`.
  Its `WriteTo` serialises the log. For each record it writes uvarint(tag
  length), tag, uvarint(payload length) and payload. The class `LogConn`
  taps one connection's reads and writes into the log.
- **Binary form** (modules `Uvarint` and `Codec`). `Uvarint` is the unsigned
  base-128 varint of Go's encoding/binary, the Protocol Buffers varint.
  `Codec` holds the record layout, the decoder `loadRecord`, and the whole
  stream decoded record by record.
- **Replayer** (modules `Queue` and `Replayer`, from loader.go and
  loaderconn.go). `Queue` states on values what `fetch(tag)` does to the
  prefetch queue, the unread stream and the session time. First it tops the
  queue up to 10 records. Then it pops the "time" and "tls:keylog" records at
  the head; a popped "time" record sets the session time. Last it removes the
  first record carrying the tag and returns that record's payload. The class
  `Replayer.Loader` runs the same loops in place and is proved against those
  functions. `Replayer.LoaderConn` fabricates a connection from fetches.
- **Helpers** (module `Util`, from util.go): `dup` and Go's built-in `copy`,
  over arrays.

Module `Types` holds the bytes, records, reserved tags and errors. Module `Io`
stands for the environment the core talks to. An `Io.Endpoint` is a socket,
a response body, the entropy source or an output sink. Its reads deliver a
given sequence of replies. Its writes go into a sink with a limited amount of
room, and a write that does not fit is a short write. The clock and the
outcome of each TCP dial (`Io.Dialing`) are parameters.

Some behaviours of the code are easy to miss; the model keeps each of them:

- The recorder's plain `dialContext` dials the network (saver.go:71-74). It
  does not fail with "not tls"; only the replayer's does.
- A stream cut inside the last record is not always a format error. The cut
  may come before the record, right after its tag length, right after its
  tag, or right after its payload length. `loadRecord` then reports io.EOF,
  and `fetch` takes that for the end of the stream (loader.go:110).
  `Codec.ParseTruncated` and `Codec.DecodeCut` state exactly which cuts do
  this.
- Replay can fail with "out of data" before the stream is used up. A lookup
  sees at most the 10 buffered records, so a full window without the tag
  fails (`Queue.WindowLimit`).
- `LogConn.Read` logs whatever bytes a read delivered, even when the read also
  returned an error, not only on successful reads.
- The replayer's `readRand` and `loaderConn.Read` return the payload's length.
  That length can exceed the buffer the payload was copied into.
- `Saver.Get` returns only an error. `Saver.time` does not change the
  session start time. The replayer's `time` ignores the outcome of its fetch.

## Model

| member | source | states |
|---|---|---|
| Util.Copy | util.go:11 | `copy` copies min(len(dst), len(src)) bytes from the front, returns that count and leaves the rest of dst untouched |
| Util.Dup | util.go:9-13 | `dup` returns a fresh buffer of the same length holding the same bytes; being fresh, later writes to the input cannot reach it |
| Types.IsEOF | loader.go:110 | `errors.Is(err, io.EOF)` holds only of io.EOF itself or of an error wrapping a cause with %w |
| Uvarint.Encode | saver.go:133 | PutUvarint writes at least one byte; its partner is Uvarint.EncodeDecode |
| Uvarint.DecodeFrom | loader.go:78 | ReadUvarint's loop from byte i takes at least one more byte when it succeeds and stops within 10 bytes and the input |
| Uvarint.Decode | loader.go:78 | ReadUvarint takes at most 10 bytes and never more than the input; a successful read takes at least one |
| Uvarint.DecodeFromEncode | loader.go:78 | ReadUvarint's loop, started at any byte of an encoding of a value that fits the remaining bits, ends right after the encoding with that value |
| Uvarint.EncodeDecode | saver.go:133-134 | round trip: ReadUvarint returns every uint64 that PutUvarint wrote, consuming exactly its encoding and leaving what follows |
| Uvarint.DecodeFromNotEOF | loader.go:78 | once a byte has been read, running out of input is io.ErrUnexpectedEOF, never io.EOF |
| Uvarint.DecodeEOF | loader.go:78-81 | ReadUvarint reports io.EOF only on an empty input |
| Uvarint.EncodeContinues | saver.go:133 | every byte of PutUvarint's output except the last has the continuation bit set |
| Uvarint.DecodeFromRunsOut | loader.go:78 | continuation bytes up to the end of a short input run into the end of input: io.EOF if there were none, else io.ErrUnexpectedEOF |
| Uvarint.DecodeTruncated | loader.go:78-81 | an encoding cut before its end takes all the input and fails with io.EOF at the cut before its first byte and io.ErrUnexpectedEOF at any later cut |
| Uvarint.EncodeLength | saver.go:133 | the encoding has k + 1 bytes when 128^k <= x < 128^(k+1): one byte up to 127, two from 128 to 16383, three from 16384 |
| Uvarint.LengthRange | saver.go:133 | the converse of EncodeLength: an encoding of k + 1 bytes means 128^k <= x < 128^(k+1), so the two state "exactly when" |
| Codec.EncodeRecord | saver.go:133-154 | one record's binary form takes at least its tag, its payload and two length bytes; its partner is Codec.ParseEncoded |
| Codec.Encode | saver.go:132-155 | the binary form of a log takes at least two bytes per record; its partner is Codec.DecodeEncoded |
| Codec.Chunks | saver.go:132-155 | WriteTo issues four writes per record |
| Codec.EncodeRecordFields | saver.go:133-154 | the four writes for one record carry its binary form |
| Codec.ChunksFlatten | saver.go:132-155 | the writes for a whole log, one after the other, carry exactly its binary form |
| Codec.ChunksAt | saver.go:132-154 | write 4i + j of a log is field j (tag length, tag, payload length, payload) of record i |
| Codec.EncodeAppend | saver.go:159-164 | appending a record to the log appends its binary form to the log's binary form |
| Codec.ReadFull | loader.go:83 | io.ReadFull of n bytes succeeds exactly when n bytes are there and returns the first n; otherwise it takes everything and fails with io.EOF when nothing was there, else io.ErrUnexpectedEOF |
| Codec.ParseRecord | loader.go:77-99 | loadRecord never takes more than the stream holds, and a loaded record takes at least one byte |
| Codec.ParseTag | loader.go:82-86 | reading the tag never takes more than the stream holds |
| Codec.ParsePayload | loader.go:88-98 | reading the payload length and payload never takes more than the stream holds |
| Codec.ParseEOFAtEnd | loader.go:77-99 | loadRecord reports io.EOF (plain or wrapped) only once the stream is used up |
| Codec.ParseTagEOFAtEnd | loader.go:82-96 | after the tag length, io.EOF is reported only once the stream is used up |
| Codec.ParseRecordStep | loader.go:78-81 | a well-formed tag length is read whole and loading goes on at the tag |
| Codec.ParseTagStep | loader.go:82-86 | the tag is read whole and loading goes on at the payload length |
| Codec.ParsePayloadStep | loader.go:88-98 | a payload length followed by that many bytes yields the record and leaves what follows |
| Codec.ParseEncoded | loader.go:77-99 | round trip of one record: loadRecord reads back exactly the record WriteTo wrote and leaves what follows |
| Codec.CutInTagLength | loader.go:78-81 | a stream that ends inside the tag length fails with "while reading len" wrapping io.EOF (no byte) or io.ErrUnexpectedEOF |
| Codec.CutInTag | loader.go:82-86 | a stream that ends inside the tag fails with io.EOF (no tag byte) or io.ErrUnexpectedEOF |
| Codec.CutInPayloadLength | loader.go:88-91 | a stream that ends inside the payload length fails with io.EOF (no byte) or io.ErrUnexpectedEOF |
| Codec.CutInPayload | loader.go:92-96 | a stream that ends inside the payload fails with io.EOF (no payload byte) or io.ErrUnexpectedEOF |
| Codec.CutRecordInTagLength | loader.go:78-81 | a record cut inside its tag length fails, wrapped, with io.EOF at the cut before it and io.ErrUnexpectedEOF elsewhere |
| Codec.CutRecordInTag | loader.go:82-86 | a record cut inside its tag fails with io.EOF right after the tag length and io.ErrUnexpectedEOF elsewhere |
| Codec.CutRecordInPayloadLength | loader.go:88-91 | a record cut inside its payload length fails with io.EOF right after the tag and io.ErrUnexpectedEOF elsewhere |
| Codec.CutRecordInPayload | loader.go:92-96 | a record cut inside its payload fails with io.EOF right after the payload length and io.ErrUnexpectedEOF elsewhere |
| Codec.ParseTruncated | loader.go:77-99 | a record cut anywhere before its end fails to load and uses up the stream; the failure counts as io.EOF exactly at the four clean cuts |
| Codec.DecodeLog | loader.go:107-116 | decoding a stream record by record, as the refill loop does, yields no more records than the stream has bytes |
| Codec.DecodeEmpty | loader.go:107-116 | an empty stream decodes to no records |
| Codec.DecodeRecord | loader.go:107-116 | decoding reads an encoded record back and goes on with what follows |
| Codec.DecodeEncodedPrefix | loader.go:107-116 | decoding reads back every record of an encoded log, in order, and goes on with what follows |
| Codec.DecodeEncoded | loader.go:77-116 | round trip of a log: decoding the stream WriteTo produced yields the log |
| Codec.DecodeCut | loader.go:107-116 | a stream cut inside its last record decodes to the records before it at a clean cut, and fails everywhere else |
| Queue.Refill | loader.go:107-116 | the refill never loads past 10 buffered records and never grows the stream; an error it returns is never io.EOF |
| Queue.Fill | loader.go:107 | the refill loop's test: it loads no more records than there is room for, never grows the stream and never returns io.EOF |
| Queue.Load | loader.go:108-115 | the refill loop's body: the same bounds once a record is loaded or the load fails |
| Queue.RefillStep | loader.go:108-115 | one pass of the refill loop: a failed load ends it (quietly for io.EOF, plain or wrapped); a loaded record is appended and the loop goes on from the rest of the stream |
| Queue.RefillDecodes | loader.go:107-116 | the refill loads the front of what the whole stream decodes to; on a load error the stream does not decode; a refill that stops short of the window has used up the stream |
| Queue.RefillStops | loader.go:109-113 | a refill that stops on a load error either returns it or, for io.EOF, loads nothing from an exhausted stream |
| Queue.RefillNothing | loader.go:107-116 | with an empty stream a refill loads nothing and reports nothing |
| Queue.Find | loader.go:139-144 | the scan stops at the first record carrying the tag, or at the end |
| Queue.Remove | loader.go:141 | removing record j keeps every other record, in order |
| Queue.Take | loader.go:118-145 | the scan fails with "out of data" and leaves the queue alone exactly when no record carries the tag; otherwise it removes the first such record, keeps the rest in order and returns its payload |
| Queue.Lookup | loader.go:118-145 | a lookup never grows the queue and shrinks it when it succeeds; a failed lookup is "out of data" and leaves no record for the tag |
| Queue.Fetch | loader.go:101-146 | fetch never reports a clean end (io.EOF) as its error and never grows the stream; its effect is that of Refill then Lookup |
| Queue.Drained | loader.go:126-138 | the records a lookup pops from the head are all "time" or "tls:keylog" records |
| Queue.LookupDrainsThenTakes | loader.go:118-145 | a lookup pops the leading side-channel records, keeping the last time payload, then either answers "time" from the popped "time" record or takes the first record for the tag from what is left |
| Queue.LookupIsolation | loader.go:120-145 | a lookup never returns another tag's payload: a success is the empty "time" answer or the payload of a buffered record carrying the tag |
| Queue.LookupMissing | loader.go:120-145 | a lookup for a tag no buffered record carries fails, and only the side-channel head is gone; this includes the clock's lookup for "time" when no "time" record is buffered |
| Queue.WindowLimit | loader.go:107-145 | with 10 buffered records that are neither side-channel records nor carry the tag, fetch fails without reading further and changes nothing, whatever the stream holds; for "time" (loader.go:196) the clock keeps the old session time although a later "time" record is in the stream |
| Queue.FetchIsolation | loader.go:101-146 | fetch never returns another tag's payload; after a clean refill, a failed fetch leaves no record for the tag buffered |
| Queue.ReplayHead | loader.go:101-146 | a record at the head of a fully loaded queue answers the next fetch for its tag, and only it leaves the queue |
| Queue.TimeHeadReplay | loader.go:126-134 | a "time" record at the head only sets the session time for a fetch of another tag |
| Queue.ReplayInOrder | loader.go:101-146 | fetching the tags of a fully loaded log without side-channel records, in recorded order, returns their payloads in order and consumes exactly those records |
| Replayer.SpawnAddr | loader.go:186-193 | `spawnAddr` gives no address (nil) exactly when the fetch failed, and otherwise the fetched address |
| Replayer.Loader.constructor | loader.go:32-37 | `NewLoader` starts with an empty queue, the whole stream unread and the zero time |
| Replayer.Loader.FromLog | saver.go:50-55 | the Loader built by `Saver.Loader` holds the recorded log and time, with nothing left to read |
| Replayer.Loader.LoadRecord | loader.go:77-99 | `loadRecord` returns what Codec.ParseRecord gives and consumes exactly the bytes it read; the queue and the time are untouched |
| Replayer.Loader.Fetch | loader.go:101-146 | `fetch` has exactly the effect of Queue.Fetch on the queue, the stream and the time |
| Replayer.Loader.Refill | loader.go:107-116 | the refill loop appends exactly Queue.Refill's records to the queue, leaves its stream, returns its error and keeps the time |
| Replayer.Loader.Lookup | loader.go:118-145 | the lookup loop with index n has exactly the effect of Queue.Lookup and leaves the stream |
| Replayer.Loader.ReadRand | loader.go:200-211 | a one-byte read returns (1, nil) and changes nothing; otherwise the "rnd:read" fetch's payload is copied as far as it fits and its full length returned, and a failed fetch returns 0 and its error with b untouched |
| Replayer.Loader.Time | loader.go:195-198 | `time` does what a "time" fetch does and returns the session time afterwards, whatever the fetch returned |
| Replayer.Loader.DialContext | loader.go:148-151 | a plain dial on replay always fails with "not tls" |
| Replayer.Loader.DialTls | loader.go:153-169 | fetches "addr:conn"; a failed fetch or a non-empty payload (the recorded dial error) fails; otherwise the connection gets the results of the "addr:local" and then "addr:remote" fetches |
| Replayer.LoaderConn.constructor | loader.go:164-169 | the connection keeps its loader, name and the two addresses |
| Replayer.LoaderConn.Read | loaderconn.go:15-22 | consumes one "name:read" fetch; copies its payload into b as far as it fits and returns the payload's full length; a failed fetch returns 0 and its error with b untouched |
| Replayer.LoaderConn.Write | loaderconn.go:24-28 | consumes one "name:write" fetch, ignores its outcome and reports all of b written |
| Replayer.LoaderConn.Close | loaderconn.go:30-32 | closing succeeds |
| Replayer.LoaderConn.LocalAddr | loaderconn.go:34-36 | the local address fixed at construction |
| Replayer.LoaderConn.RemoteAddr | loaderconn.go:38-40 | the remote address fixed at construction |
| Replayer.LoaderConn.SetDeadline | loaderconn.go:42-44 | setting a deadline succeeds |
| Replayer.LoaderConn.SetReadDeadline | loaderconn.go:46-48 | setting a read deadline succeeds |
| Replayer.LoaderConn.SetWriteDeadline | loaderconn.go:50-52 | setting a write deadline succeeds |
| Recorder.Tagged | saver.go:189-193 | one body record per chunk |
| Recorder.Chunk | saver.go:190-193 | a read records at most one chunk: its bytes, when there are any |
| Recorder.Slurp | saver.go:188-200 | the body loop never returns io.EOF: it turns the body's io.EOF into success; its partner is Recorder.SlurpRecordsBody |
| Recorder.ReadOn | saver.go:189-194 | a body read without error keeps the loop going with its chunk recorded |
| Recorder.ReadLast | saver.go:194-199 | a body read with an error ends the loop with its chunk recorded; io.EOF ends it without error |
| Recorder.SlurpRecordsBody | saver.go:188-200 | the body loop records the body exactly: its chunks, in order, are the bytes the body delivered; each is non-empty and at most 65536 bytes; it returns the body's final error unless that is io.EOF |
| Recorder.RoleTagNotSideChannel | saver.go:80-85 | a per-connection tag is never "time" or "tls:keylog", so a lookup never pops it as a side-channel record |
| Recorder.DialReplays | saver.go:83-85 | the three records a dial appends, at the head of a fully loaded queue, answer in order the replayer's three dial fetches with the same addresses, and are consumed |
| Recorder.RefusedReplays | saver.go:79-81 | the record of a refused dial, at the head of a fully loaded queue, answers the replayer's "addr:conn" fetch with the error text |
| Recorder.RandReplays | saver.go:213 | a recorded "rnd:read" record at the head of a fully loaded queue answers the replayer's next "rnd:read" fetch with the recorded bytes |
| Recorder.ReadReplays | logconn.go:17-19 | a recorded "name:read" record at the head of a fully loaded queue answers the replayer's next "name:read" fetch with the recorded bytes |
| Recorder.WriteToOutcome | saver.go:125-157 | WriteTo's result from where its writes stopped: success exactly when the sink takes the whole binary form; otherwise a short write, with the front of the binary form written and the room used up |
| Recorder.StoppedShort | saver.go:134-153 | writes that stopped early took fewer bytes than the binary form holds, and those bytes are its front |
| Recorder.Fits | saver.go:134-138 | a write that fits keeps every write so far through whole |
| Recorder.Overflows | saver.go:134-138 | a write that does not fit is the one that stops WriteTo |
| Recorder.WritesOf | saver.go:132-154 | the writes for record i are writes 4i to 4i + 3 of the log |
| Recorder.Extend | saver.go:132-155 | a record's four writes, all through, extend the writes through by four |
| Recorder.ExtendStopped | saver.go:132-153 | a record whose writes stop at write k stops the log's writes at 4i + k |
| Recorder.Put | saver.go:134-138 | one write of WriteTo: it goes through whole, or it is the short write that stops WriteTo |
| Recorder.WriteRecord | saver.go:133-154 | the four writes for one record go through whole, or stop at the first short write, issuing none after it |
| Recorder.Saver.constructor | saver.go:36-48 | `NewSaver` starts a log of exactly one "time" record holding the start time |
| Recorder.Saver.Loader | saver.go:50-55 | `Loader` returns a fresh replayer over the recorded log at the recorded start time |
| Recorder.Saver.Append | saver.go:159-164 | `append` adds exactly one record (tag, copy of the bytes) at the end; earlier records are unchanged and keep their order |
| Recorder.Saver.Time | saver.go:110-115 | the clock hook logs exactly one "time" record with the current time and returns that time |
| Recorder.Saver.Keylog | saver.go:177-180 | the key log writer logs the line as one "tls:keylog" record and reports all of it written |
| Recorder.Saver.ReadRand | saver.go:203-215 | a one-byte read returns (1, nil) and touches neither log, source nor buffer; otherwise a source error returns 0 and the error and logs nothing, and a read logs exactly the bytes it delivered under "rnd:read" |
| Recorder.Saver.WriteTo | saver.go:125-157 | WriteTo succeeds exactly when the sink takes the whole binary form, writing exactly that with four writes per record and returning its length; otherwise it returns a short write after the front of the binary form, and no write follows the failed one |
| Recorder.Saver.DialContext | saver.go:71-74 | a plain dial returns the connection or the dial error and logs nothing |
| Recorder.Saver.DialTls | saver.go:76-90 | a refused dial logs one "addr:conn" record with the error text and fails; a connection logs "addr:conn" (empty), "addr:local" and "addr:remote", in that order, and is tapped by a LogConn named addr |
| Recorder.Saver.Get | saver.go:182-201 | given the client's outcome: a failed request returns its error and the body loop logs nothing (the dial hooks the request ran have logged already); otherwise every non-empty body read is logged as "http:body", in order, until the body's error, and io.EOF is success |
| Recorder.Saver.ReadBody | saver.go:188-200 | the body loop logs exactly the chunks Slurp gives and returns its outcome |
| Recorder.Saver.ReadChunk | saver.go:190-193 | one body read logs its bytes as one "http:body" record when there are any, and nothing otherwise |
| Recorder.LogConn.constructor | saver.go:86-90 | the tap keeps the connection, the logger and the name |
| Recorder.LogConn.Read | logconn.go:15-21 | returns the connection's (n, err) unchanged; logs one "name:read" record of b[:n] when n > 0, whatever the error, and nothing when n == 0 |
| Recorder.LogConn.Write | logconn.go:23-26 | logs all of b under "name:write" before the write, whatever the write's outcome, and returns the connection's result unchanged |

## Left out

- The TLS handshake and `tls.Config`, `http.Client` and `http.Transport`, `net.Dialer` and `net.SplitHostPort` are library machinery and network I/O. A dial is modelled by its outcome (`Io.Dialing`). Each dial hook is modelled up to the point where the handshake starts, together with the log operations it triggers. The close after a failed handshake (saver.go:101-106, loader.go:177-183) is left out with the handshake.
- `Loader.Get`, `Loader.Do` and the two `httpClient` builders wire the HTTP client and buffer its response body, all inside library code. `Saver.Get` is modelled from the response the client returned, so that response is a parameter, and the deferred `Body.Close` is left out.
- `time.MarshalBinary`, `time.UnmarshalBinary` and the `netip.AddrPort` binary forms are left out. Times and addresses are opaque bytes: the session time is the last "time" payload, a malformed payload is not told apart, and `spawnAddr` keeps the fetched bytes as the address.
- The clock is a parameter (`now`), and `crypto/rand` is an `Io.Endpoint` that delivers arbitrary replies.
- `Save` and `MarshalJSON` are a debug-only JSON rendering that relies on the JSON library.
- `sync.Mutex` and `log.Printf` are left out: the model is single-threaded, and the logging never changes control flow.
- `appendAddr` panics on a non-TCP address (saver.go:172-173), and `make([]byte, ln)` can fail on a huge length (loader.go:82, 92). Both are runtime failures and are left out.
- `readerFunc.Read` (util.go:3-7) turns a method value into an `io.Reader`; Dafny has no first-class methods. The model calls `ReadRand` where Go calls it through the wrapper, which only forwards.
- Recorder.Saver.Loader: in Go it hands the recorder's `[]*saverBuffer` to a `[]*dataRecord` field, which does not type-check. It also shares the slice with the recorder and leaves the loader's reader nil, so a refill below 10 records would dereference nil. The model copies the log into the new loader and gives it an empty stream.
- Recorder.Saver.WriteTo: `total` is an int64 in Go; its overflow cannot happen for a log that fits in memory and is not modelled.
- Recorder.Saver.WriteTo, Recorder.LogConn.Write: the sink or connection fails only by a short write; writers that fail with other errors, or that take everything and still fail, are not modelled. This holds for every `Io.Endpoint` write.
- Replayer.Loader: the stream the loader reads is the bytes it delivers, so a reader that fails other than by ending is not modelled. In Go that error comes back from ReadUvarint or io.ReadFull, through `loadRecord` (loader.go:80, 85, 90, 95), and `fetch` returns it (loader.go:113). The model's load errors are only io.EOF, io.ErrUnexpectedEOF and overflow.
- Uvarint.Decode: the partial value ReadUvarint returns with an error is not modelled, because `loadRecord` discards it.
- saver_test.go exercises the live network and does not match the current signatures of `NewSaver` and `Get`, so it is not part of this model.
