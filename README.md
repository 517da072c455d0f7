# Chunked image download over the bwLehrpool data port

This project models the download client of `client/downloader.go`: the
framed key/value codec that client and server use for their meta messages,
and the `Downloader`, an `io.Reader` that streams an image file of
`fileSize` bytes from the server in windows of at most 16 MiB.

- **Codec** (`framing.dfy`, module `Framing`). A meta message `key=value`
  travels as a 2-byte big-endian length, the message bytes and the
  terminator `0x00 0x00`. `SendKeyValue` and `SendEndOfMeta` write into a
  buffered writer, modelled as a `Sink` value: the bytes already on the wire,
  the buffered bytes, the writer's sticky error and whether the connection
  takes data. `ReadMetaData` and `ReadEndOfMeta` read from a buffered reader,
  modelled as a `Source` value: the bytes the server still has to deliver,
  and whether the connection then ends cleanly or with a reset. Each operation
  returns the new end together with its outcome.
- **Offsets in decimal** (`text.dfy`, module `Text`). `Decimal` is
  `strconv.FormatInt(x, 10)` for the non-negative offsets of a range request.
  It is proved to be an injective, invertible rendering.
- **Downloader** (`downloader.dfy`, module `Downloading`). `Downloader` is a
  class with the fields the client updates: `totalRead`, `startOffset`,
  `endOffset` and the two ends of the connection. `fileSize` and `chunkSize`
  (16 MiB) are constants.
  - `RequestRange` sends `RANGE=<start>:<end>` and checks that the server
    echoes it.
  - `Read` fills the caller's array and moves the window.
  - Each method is proved equal to a function of the state before the call:
    `Negotiate` for `RequestRange`, and `ReadStep` (with `Fetch` for the data
    read) for `Read`. The protocol properties are lemmas about these functions.
  - The class invariant `Valid` says the reader streams `Window(windowIndex)`
    and has read up to its start. `Window(k)` is the k-th window: `[0, 16 MiB)`,
    then each window starts where the one before ended and ends a chunk later
    or at the file size. `windowIndex` is a ghost counter of the completed
    windows. `Read` preserves the invariant and increments the counter exactly
    when it reads up to the end of the window.
- **Whole downloads** (`scenarios.dfy`, module `DownloadScenarios`). These call
  `Open` and `Read` in sequence: an empty image, and a 32 MiB image in two
  windows.

Where the code departs from an idealised reading of the protocol, the
model follows the code:
- The first window is `[0, 16 MiB)` whatever the file size (line 62), not
  `[0, min(16 MiB, fileSize))` (`FirstWindowIgnoresFileSize`).
- `DONE=` is sent again on every `Read` once the file is complete
  (lines 148-150), not once (`DoneOnEveryCall`).
- The length prefix is `int16(len(msg))`: a message of 65536 bytes or more is
  framed with its length modulo 65536 (`LongMessageLengthWraps`).
- `sendEndOfMeta` ignores the error of `Flush` (line 74). A send over a dead
  connection reports success and leaves the writer's error set.
- A failed negotiation hands its error to the caller as is: a server that
  closes before replying makes `Read` report a plain end of stream
  (`ClosedBeforeReply`).
- A connection closed cleanly in the middle of a window is reported as a
  plain end of stream too (lines 161-166), so a caller copying until EOF
  cannot tell a truncated image from a whole one (`ClosedMidWindow`).

## Model

| member | source | states |
|---|---|---|
| Text.Decimal | client/downloader.go:130 | the rendering of an offset is non-empty, all ASCII digits, and starts with `0` only for 0 |
| Text.DecimalRoundTrip | client/downloader.go:130 | reading the digits back gives the offset: the rendering loses nothing |
| Text.DecimalInjective | client/downloader.go:130 | two offsets with the same rendering are equal |
| Text.DecimalLength | client/downloader.go:130 | for k >= 1, an offset below 10^k has at most k digits |
| Framing.Int16BigEndian | client/downloader.go:85 | the length prefix is two bytes whose big-endian value is the message length modulo 65536 |
| Framing.Frame | client/downloader.go:82-93 | a frame is 4 bytes longer than its message `key=value` |
| Framing.SendEndOfMeta | client/downloader.go:68-76 | with a sticky error: nothing changes and the error is returned; on a live connection the buffer plus `00 00` reaches the wire and the buffer empties; on a dead one `00 00` stays buffered, the error sticks and success is reported |
| Framing.SendKeyValue | client/downloader.go:78-94 | an empty key is an error that leaves the writer untouched; a sticky error is returned with no bytes written; otherwise exactly the frame (length, `key=value`, `00 00`) goes out after what was buffered and is flushed, or stays buffered with the error set if the connection is down |
| Framing.ReadFull | client/downloader.go:99-101 | a fixed-size read takes exactly k bytes if there are k; otherwise it consumes everything and fails with `ErrUnexpectedEOF` when some bytes came and the connection closed cleanly, and with the connection's own end otherwise (EOF on a clean close with no byte, the reset whenever the connection was reset) |
| Framing.ReadSome | client/downloader.go:161 | the buffered read fails only when there is room and no byte is left; otherwise it hands out a prefix of the stream of at most `len(p)` bytes, at least one when there is room, and exactly the ready amount when that fits |
| Framing.ReadEndOfMeta | client/downloader.go:116-126 | succeeds iff the next two bytes are `00 00`, consumes those two bytes, and reports any other pair as a bad terminator |
| Framing.ReadMetaData | client/downloader.go:96-114 | succeeds iff the stream starts with a complete frame; then it returns the payload the prefix announces and consumes the length, payload and terminator |
| Framing.ReadMetaDataFailures | client/downloader.go:99-112 | the failure cases: prefix cut short, payload cut short, terminator cut short (each `ErrUnexpectedEOF` after a partial read on a clean close, else the connection's end: EOF, or the reset when the connection was reset), and a wrong terminator |
| Framing.FrameRoundTrip | client/downloader.go:82-113 | reading back a frame whose message is shorter than 65536 bytes returns the message and consumes exactly the frame |
| Framing.SendKeyValueRoundTrip | client/downloader.go:78-113 | what `sendKeyValue` writes on a working connection is `4 + len(key=value)` bytes that `readMetaData` decodes back to `key=value` |
| Framing.LongMessageLengthWraps | client/downloader.go:85 | a 65536-byte message gets the prefix `00 00` and is not read back |
| Downloading.Negotiate | client/downloader.go:128-145 | writes the `RANGE=<start>:<end>` frame; succeeds iff the writer had no error and the reply read is exactly `RANGE=<start>:<end>`; a write error reads nothing; a read error or any other reply is returned as the error |
| Downloading.Downloader.constructor | client/downloader.go:53-64 | a new downloader starts at offset 0 in the first window `[0, 16 MiB)` (window count 0) on the given connection |
| Downloading.Downloader.Open | client/downloader.go:42-65 | sends `D` and the `TOKEN` frame; gives no downloader exactly when the writer already failed, else a fresh one in the initial state |
| Downloading.Downloader.RequestRange | client/downloader.go:128-145 | the new ends of the connection and the error are those of `Negotiate`; the offsets and the window count do not change, so the window invariant is kept |
| Downloading.Downloader.Receive | client/downloader.go:160-178 | the data read lands at the front of `p`, the rest of `p` is untouched, position, reader and error are those of `Fetch`, and the window count goes up exactly when the window is completed; the window invariant is kept |
| Downloading.Downloader.Read | client/downloader.go:147-179 | keeps the invariant that the reader streams `Window(windowIndex)`, and increments `windowIndex` exactly when the call succeeds and reaches the old `endOffset`; `n <= len(p)`; position, both connection ends, error and the bytes in `p[:n]` are those of `ReadStep`; `p[n:]` is untouched |
| Downloading.CopyInto | client/downloader.go:161 | the bytes read are copied to the front of `p` and the rest of `p` is kept |
| Downloading.ReadAtEndSendsDone | client/downloader.go:148-151 | at `totalRead == fileSize` a call sends `DONE=`, returns EOF with no data, and leaves position and reader as they were |
| Downloading.DoneOnEveryCall | client/downloader.go:148-150 | two calls at the end both return EOF and put two `DONE=` frames on the wire |
| Downloading.NegotiationOnlyAtWindowStart | client/downloader.go:154-159 | before the end of the file (`totalRead != fileSize`), a range is requested iff `totalRead <= startOffset`, for exactly the current window; otherwise the writer is untouched |
| Downloading.FailedReadKeepsProgress | client/downloader.go:154-167 | a call that fails returns no data and leaves all three offsets unchanged |
| Downloading.ReadAdvances | client/downloader.go:161-177 | a successful call hands out the next `n <= len(p)` bytes after any echo and adds exactly `n` to `totalRead`; a completed window is followed by `[end, min(end + 16 MiB, fileSize))`, otherwise the window stays |
| Downloading.FetchAdvances | client/downloader.go:161-177 | the data read alone: next `n` bytes, `totalRead + n`, and the window moves exactly when it is completed |
| Downloading.ReadStepAtWindowStart | client/downloader.go:154-161 | after a successful negotiation, the call goes on with the data read on the connection state the negotiation left |
| Downloading.FetchFollowsWindows | client/downloader.go:168-177 | the data read leaves the reader in `Window(k)`, or moves it to `Window(k + 1)` exactly when it reads up to the end of `Window(k)` |
| Downloading.ReadStepFollowsWindows | client/downloader.go:147-179 | every call leaves the reader in `Window(k)`, or moves it to `Window(k + 1)` exactly when it succeeds and reads up to the window's end; the start is never beyond `totalRead` |
| Downloading.RangeRequestedIsWindow | client/downloader.go:154-156 | in `Window(k)`, the range a call requests is `Window(k)` itself |
| Downloading.RangeValueInjective | client/downloader.go:130 | different ranges have different `<start>:<end>` values |
| Downloading.RangeMessageInjective | client/downloader.go:141 | the reply `RANGE=<s>:<e>` names one range only |
| Downloading.RangeMessageShort | client/downloader.go:130 | a range request for int64 offsets is under 65536 bytes, so its length prefix does not wrap |
| Downloading.EchoAccepted | client/downloader.go:128-145 | a server that echoes the request passes the check; the request frame goes on the wire and the bytes after the echo are left for reading |
| Downloading.OtherRangeRejected | client/downloader.go:141-143 | an echo of any other range is a range mismatch |
| Downloading.ClosedBeforeReply | client/downloader.go:135-139 | a server that closes cleanly before replying makes the negotiation fail with EOF |
| Downloading.ClosedMidWindow | client/downloader.go:161-166 | a clean close after part of a window was read makes `Read` return plain EOF, reading nothing and changing no state, although the file is not complete (`totalRead != fileSize`) |
| Downloading.WindowDelivered | client/downloader.go:154-177 | at a window start, with the echo and the whole window ready, one window-sized call sends the request, hands out the window and moves to the next window |
| Downloading.WholeWindowFetched | client/downloader.go:161-177 | with the whole window ready, one window-sized read hands it out and completes the window |
| Downloading.WindowClosedForm | client/downloader.go:168-177 | for 1 <= k with `k * 16 MiB <= fileSize`, window k is `[k * 16 MiB, min((k + 1) * 16 MiB, fileSize))`; windows are contiguous and none is longer than a chunk |
| Downloading.WindowsPastTheEnd | client/downloader.go:168-177 | for a file of at least 16 MiB, every window k with `fileSize < k * 16 MiB` is the empty window `[fileSize, fileSize)` |
| Downloading.FirstWindowIgnoresFileSize | client/downloader.go:53-62 | the first window is `[0, 16 MiB)` and reaches past the end of a smaller file |
| Downloading.FortyMebibyteWindows | client/downloader.go:168-177 | for a 40 MiB file, `Window(0..3)` are `[0, 16Mi)`, `[16Mi, 32Mi)`, `[32Mi, 40Mi)` and the empty `[40Mi, 40Mi)`; with `Downloader.Read`'s invariant these are the windows the reader streams in turn |
| DownloadScenarios.EmptyImage | client/downloader.go:147-151 | for a zero-byte image, two calls both return EOF and the wire carries `D`, the token and two `DONE=` frames, with no range request |
| DownloadScenarios.TwoChunkImage | client/downloader.go:147-179 | for a server that echoes each request and has each 16 MiB window ready for a single read (burst = 16 MiB), a 32 MiB image is delivered whole, after exactly two range requests `0:16777216` and `16777216:33554432` and one `DONE=` |
| DownloadScenarios.ReadWindow | client/downloader.go:154-177 | one call at a window start whose echo and bytes are ready hands out the window, sends the request and moves on to the next window, incrementing the window count |

`ReadStep` and `Fetch` (the specification functions of `Read`), `Write` and
`Flush` (the buffered writer), `Message`, `Uint16BigEndian` (the length
prefix read back, line 103), `Window`, `NextEnd` and `RangeValue` carry no contract of their own. The rows above state their
properties.

## Left out

- Opening the connection (`net.Dial`), building the `bufio` reader and writer, and logging in `NewDownloader` (lines 28-41) are not modelled. The model starts from the two ends of an open connection.
- The struct fields `data`, `conn` and `ti` are not modelled. The token is passed to `Open` directly.
- Framing.SendKeyValue: the `bufio.Writer` is modelled as buffering until the next `Flush`. Its automatic write-through when a write does not fit its 4096-byte buffer is not modelled. On a live connection this only changes when the bytes reach the wire. On a dead connection it also changes the outcome: the overflowing write fails, so `sendKeyValue` returns the error (lines 85-91) where the model reports success and sets the sticky error. For example, `NewDownloader` with a TOKEN frame of about 4090 bytes or more on a dead link returns nil (lines 49-51), while `Downloader.Open` returns a downloader.
- The `bufio.Reader`'s read-ahead from the socket is not modelled. `Source` holds the bytes not yet handed to the client.
- How many bytes one `bufio.Reader.Read` returns depends on the network. It is the parameter `burst`.
- Framing.ReadSome: a buffered reader holding a pending error returns it even for an empty `p`. The model returns no bytes and no error for an empty `p`.
- Framing.ReadSome: a failing read returns no bytes. A TCP `net.Conn` read reports an error only with 0 bytes, and `bufio.Reader.Read` passes that on. So the bytes that `Read` would drop on an error (lines 161-166) never arise here, and the model has no such case.
- Error values are abstracted to the constructors of `Error`. The text of `fmt.Errorf` messages and of logged lines is left out.
- Downloader.Read: offsets and `fileSize` are unbounded naturals. int64 overflow and negative file sizes are not modelled. `RangeMessageShort` covers offsets up to the largest int64.
- The bytes of the image are never interpreted by the client, and the model treats them as opaque.
- `client/client.go`, `client/handler.go`, `client/handler_master.go` and `client/util.go` are not part of this model. They are RPC, TLS and JSON plumbing around the downloader.
