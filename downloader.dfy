/** Range negotiation and the chunked reader of client/downloader.go:14-179.

    A Downloader streams a file of `fileSize` bytes from the server in windows
    of at most 16 MiB. Before the first byte of a window is read it asks for the
    window with a RANGE=<start>:<end> message and checks that the server echoes
    it; once the whole file has been read it sends DONE= on every call. */
module Downloading {
  import opened Text
  import opened Framing

  /** chunkSize of NewDownloader: 16 MiB. */
  const CHUNK_SIZE: nat := 16 * 1024 * 1024
  /** The largest int64: offsets are int64 in the client. */
  const MAX_INT64: nat := 0x7FFF_FFFF_FFFF_FFFF

  const HANDSHAKE: seq<byte> := [0x44]                        // "D"
  const TOKEN_KEY: seq<byte> := [0x54, 0x4F, 0x4B, 0x45, 0x4E]  // "TOKEN"
  const RANGE_KEY: seq<byte> := [0x52, 0x41, 0x4E, 0x47, 0x45]  // "RANGE"
  const DONE_KEY: seq<byte> := [0x44, 0x4F, 0x4E, 0x45]         // "DONE"
  const COLON: byte := 0x3A

  /** The value of a range request: "<start>:<end>" in decimal. */
  function RangeValue(start: nat, end: nat): seq<byte>
  {
    Decimal(start) + [COLON] + Decimal(end)
  }

  /** The end of the window that follows a window ending at `end`. */
  function NextEnd(end: nat, fileSize: nat): nat
  {
    if end + CHUNK_SIZE > fileSize then fileSize else end + CHUNK_SIZE
  }

  /** The k-th window [start, end) the reader asks for, read without gaps. */
  function Window(k: nat, fileSize: nat): (nat, nat)
  {
    if k == 0 then (0, CHUNK_SIZE)
    else
      var previous := Window(k - 1, fileSize);
      (previous.1, NextEnd(previous.1, fileSize))
  }

  datatype Exchange = Exchange(sink: Sink, source: Source, err: Option<Error>)

  /** requestRange as a function of the two ends of the connection: send the
      request, read one message and compare it with the request. */
  function Negotiate(w: Sink, r: Source, start: nat, end: nat): (x: Exchange)
    ensures x.sink == SendKeyValue(w, RANGE_KEY, RangeValue(start, end)).sink
    // succeeds exactly when the reply is the request itself
    ensures x.err.None? <==>
      !w.failed && ReadMetaData(r).result == Ok(Message(RANGE_KEY, RangeValue(start, end)))
    // when the request cannot be written, nothing is read
    ensures w.failed ==> x.source == r && x.err == Some(WriteFailed)
    ensures !w.failed ==> x.source == ReadMetaData(r).source
    ensures !w.failed && ReadMetaData(r).result.Err? ==> x.err == Some(ReadMetaData(r).result.error)
    ensures !w.failed && ReadMetaData(r).result.Ok? ==>
      (ReadMetaData(r).result.value != Message(RANGE_KEY, RangeValue(start, end)) ==> x.err == Some(RangeMismatch))
  {
    var rangeString := RangeValue(start, end);
    var sent := SendKeyValue(w, RANGE_KEY, rangeString);
    if sent.err.Some? then Exchange(sent.sink, r, sent.err)
    else
      var reply := ReadMetaData(r);
      if reply.result.Err? then Exchange(sent.sink, reply.source, Some(reply.result.error))
      else if reply.result.value != Message(RANGE_KEY, rangeString) then Exchange(sent.sink, reply.source, Some(RangeMismatch))
      else Exchange(sent.sink, reply.source, None)
  }

  /** The reader's position in the file: bytes read so far, and the window
      [startOffset, endOffset) it streams. */
  datatype Progress = Progress(totalRead: nat, startOffset: nat, endOffset: nat)

  /** The reader streams the k-th window, and its start has been read up to. */
  predicate InWindow(pr: Progress, fileSize: nat, k: nat)
  {
    && pr.startOffset <= pr.totalRead
    && (pr.startOffset, pr.endOffset) == Window(k, fileSize)
  }

  /** What one call of Read does, with its effect on both ends of the connection. */
  datatype Outcome = Outcome(progress: Progress, writer: Sink, reader: Source, data: seq<byte>, err: Option<Error>)

  /** The call read data up to the end of the window (lines 168-170). */
  predicate CompletesWindow(pr: Progress, o: Outcome)
  {
    o.err.None? && o.progress.totalRead == pr.endOffset
  }

  /** Lines 160-178 of Read: one buffered read, then the new position. */
  function Fetch(pr: Progress, fileSize: nat, w: Sink, r: Source, room: nat, burst: nat): Outcome
  {
    var got := ReadSome(r, room, burst);
    if got.result.Err? then Outcome(pr, w, got.source, [], Some(got.result.error))
    else
      var total := pr.totalRead + |got.result.value|;
      var next := if total == pr.endOffset
                  then Progress(total, pr.endOffset, NextEnd(pr.endOffset, fileSize))
                  else pr.(totalRead := total);
      Outcome(next, w, got.source, got.result.value, None)
  }

  /** Downloader.Read as a function of the state before the call: `room` is
      the length of the caller's buffer, `burst` how many bytes the connection
      has ready. */
  function ReadStep(pr: Progress, fileSize: nat, w: Sink, r: Source, room: nat, burst: nat): Outcome
  {
    if pr.totalRead == fileSize then
      Outcome(pr, SendKeyValue(w, DONE_KEY, []).sink, r, [], Some(EOF))
    else if pr.totalRead <= pr.startOffset then
      var x := Negotiate(w, r, pr.startOffset, pr.endOffset);
      if x.err.Some? then Outcome(pr, x.sink, x.source, [], x.err)
      else Fetch(pr, fileSize, x.sink, x.source, room, burst)
    else
      Fetch(pr, fileSize, w, r, room, burst)
  }

  class Downloader {
    const fileSize: nat
    const chunkSize: nat := CHUNK_SIZE
    var startOffset: nat
    var endOffset: nat
    var totalRead: nat
    var connWriter: Sink
    var connReader: Source
    /** How many windows have been completed: the reader streams Window(windowIndex). */
    ghost var windowIndex: nat

    function Position(): Progress
      reads this
    {
      Progress(totalRead, startOffset, endOffset)
    }

    ghost predicate Valid()
      reads this
    {
      InWindow(Position(), fileSize, windowIndex)
    }

    /** The state NewDownloader sets up once the connection is open. */
    constructor (w: Sink, r: Source, fileSize: nat)
      ensures Valid()
      ensures this.fileSize == fileSize && connWriter == w && connReader == r
      ensures totalRead == 0 && startOffset == 0 && endOffset == CHUNK_SIZE && windowIndex == 0
    {
      this.fileSize := fileSize;
      startOffset := 0;
      endOffset := CHUNK_SIZE;
      totalRead := 0;
      windowIndex := 0;
      connWriter := w;
      connReader := r;
    }

    /** NewDownloader on an open connection: send 'D' and the token; null when
        either cannot be written. */
    static method Open(w: Sink, r: Source, token: seq<byte>, fileSize: nat) returns (d: Downloader?)
      ensures d == null <==> w.failed
      ensures d != null ==>
        && fresh(d) && d.Valid()
        && d.fileSize == fileSize
        && d.totalRead == 0 && d.startOffset == 0 && d.endOffset == CHUNK_SIZE && d.windowIndex == 0
        && d.connWriter == SendKeyValue(w.(pending := w.pending + HANDSHAKE), TOKEN_KEY, token).sink
        && d.connReader == r
    {
      var initiator := Write(w, HANDSHAKE);
      if initiator.err.Some? {
        return null;
      }
      var sent := SendKeyValue(initiator.sink, TOKEN_KEY, token);
      if sent.err.Some? {
        return null;
      }
      d := new Downloader(sent.sink, r, fileSize);
    }

    /** requestRange: ask for [start, end) and check the server's echo. */
    method RequestRange(start: nat, end: nat) returns (err: Option<Error>)
      modifies this
      ensures var x := Negotiate(old(connWriter), old(connReader), start, end);
        connWriter == x.sink && connReader == x.source && err == x.err
      ensures totalRead == old(totalRead) && startOffset == old(startOffset) && endOffset == old(endOffset)
      ensures windowIndex == old(windowIndex)
      ensures old(Valid()) ==> Valid()
    {
      var rangeString := RangeValue(start, end);
      var sent := SendKeyValue(connWriter, RANGE_KEY, rangeString);
      connWriter := sent.sink;
      if sent.err.Some? {
        return sent.err;
      }
      var reply := ReadMetaData(connReader);
      connReader := reply.source;
      if reply.result.Err? {
        return Some(reply.result.error);
      }
      if reply.result.value != Message(RANGE_KEY, rangeString) {
        return Some(RangeMismatch);
      }
      return None;
    }

    /** Lines 160-178 of Read: one buffered read into p, then the offsets
        move on as Fetch says. */
    method Receive(p: array<byte>, burst: nat) returns (n: nat, err: Option<Error>)
      modifies this, p
      ensures n <= p.Length
      ensures var o := Fetch(old(Position()), fileSize, connWriter, old(connReader), p.Length, burst);
        && Position() == o.progress && connWriter == old(connWriter) && connReader == o.reader
        && err == o.err && p[..n] == o.data && p[n..] == old(p[n..])
      ensures windowIndex == if err.None? && totalRead == old(endOffset) then old(windowIndex) + 1 else old(windowIndex)
      ensures old(Valid()) ==> Valid()
    {
      if Valid() {
        FetchFollowsWindows(Position(), fileSize, windowIndex, connWriter, connReader, p.Length, burst);
      }
      var got := ReadSome(connReader, p.Length, burst);
      connReader := got.source;
      if got.result.Err? {
        return 0, Some(got.result.error);
      }
      var data := got.result.value;
      CopyInto(p, data);
      n := |data|;
      totalRead := totalRead + n;
      if totalRead == endOffset {
        windowIndex := windowIndex + 1;
        startOffset := endOffset;
        if endOffset + chunkSize > fileSize {
          endOffset := fileSize;
        } else {
          endOffset := startOffset + chunkSize;
        }
      }
      err := None;
    }

    /** Read into p: the bytes land at the front of p, the rest of p is left
        alone. `burst` is how many bytes the connection has ready. */
    method Read(p: array<byte>, burst: nat) returns (n: nat, err: Option<Error>)
      requires Valid()
      modifies this, p
      ensures Valid()
      ensures n <= p.Length
      ensures var o := ReadStep(old(Position()), fileSize, old(connWriter), old(connReader), p.Length, burst);
        && Position() == o.progress && connWriter == o.writer && connReader == o.reader
        && err == o.err && p[..n] == o.data && p[n..] == old(p[n..])
      // one more window is done exactly when this call read up to its end
      ensures windowIndex == if err.None? && totalRead == old(endOffset) then old(windowIndex) + 1 else old(windowIndex)
    {
      ReadStepFollowsWindows(Position(), fileSize, windowIndex, connWriter, connReader, p.Length, burst);
      if totalRead == fileSize {
        var done := SendKeyValue(connWriter, DONE_KEY, []);
        connWriter := done.sink;
        return 0, Some(EOF);
      }
      if totalRead <= startOffset {
        var rangeErr := RequestRange(startOffset, endOffset);
        if rangeErr.Some? {
          return 0, rangeErr;
        }
      }
      n, err := Receive(p, burst);
    }
  }

  /** The copy inside bufio.Reader.Read: data lands at the front of p. */
  method CopyInto(p: array<byte>, data: seq<byte>)
    requires |data| <= p.Length
    modifies p
    ensures p[..|data|] == data && p[|data|..] == old(p[|data|..])
  {
    forall i | 0 <= i < |data| {
      p[i] := data[i];
    }
  }

  // ---------------------------------------------------------------------------
  // Properties of Read

  /** Once the whole file has been read, every call sends DONE= and reports
      the end of the stream, reading nothing and moving no offset. */
  lemma ReadAtEndSendsDone(pr: Progress, fileSize: nat, w: Sink, r: Source, room: nat, burst: nat)
    requires pr.totalRead == fileSize
    ensures ReadStep(pr, fileSize, w, r, room, burst)
         == Outcome(pr, SendKeyValue(w, DONE_KEY, []).sink, r, [], Some(EOF))
  {
  }

  /** DONE= is not sent once: a second call at the end sends it again. */
  lemma DoneOnEveryCall(pr: Progress, fileSize: nat, w: Sink, r: Source, room: nat, burst: nat)
    requires pr.totalRead == fileSize && !w.failed && w.linkUp
    ensures var first := ReadStep(pr, fileSize, w, r, room, burst);
      var second := ReadStep(first.progress, fileSize, first.writer, first.reader, room, burst);
      && first.err == second.err == Some(EOF)
      && second.writer.wire == w.wire + w.pending + Frame(DONE_KEY, []) + Frame(DONE_KEY, [])
  {
    var first := ReadStep(pr, fileSize, w, r, room, burst);
    assert first.writer.pending == [];
  }

  /** A range is asked for only while nothing of the current window has been
      read; otherwise Read writes nothing. */
  lemma NegotiationOnlyAtWindowStart(pr: Progress, fileSize: nat, w: Sink, r: Source, room: nat, burst: nat)
    requires pr.totalRead != fileSize
    ensures pr.startOffset < pr.totalRead ==> ReadStep(pr, fileSize, w, r, room, burst).writer == w
    ensures pr.totalRead <= pr.startOffset ==>
      ReadStep(pr, fileSize, w, r, room, burst).writer
        == SendKeyValue(w, RANGE_KEY, RangeValue(pr.startOffset, pr.endOffset)).sink
  {
  }

  /** A call that fails (failed negotiation, read error, end of stream) hands
      out no bytes and leaves all three offsets as they were. */
  lemma FailedReadKeepsProgress(pr: Progress, fileSize: nat, w: Sink, r: Source, room: nat, burst: nat)
    ensures var o := ReadStep(pr, fileSize, w, r, room, burst);
      o.err.Some? ==> o.progress == pr && o.data == []
  {
  }

  /** A successful call hands out the next n <= room bytes of the stream and
      adds exactly n to totalRead; when that completes the window, the next
      window starts where it ended and ends a chunk later or at the file size. */
  lemma ReadAdvances(pr: Progress, fileSize: nat, w: Sink, r: Source, room: nat, burst: nat)
    requires pr.totalRead != fileSize
    ensures var o := ReadStep(pr, fileSize, w, r, room, burst);
      o.err.None? ==>
        var n := |o.data|;
        && n <= room
        && o.reader.rest == (if pr.totalRead <= pr.startOffset then ReadMetaData(r).source.rest else r.rest)[n..]
        && o.data == (if pr.totalRead <= pr.startOffset then ReadMetaData(r).source.rest else r.rest)[..n]
        && o.progress.totalRead == pr.totalRead + n
        && (o.progress.totalRead == pr.endOffset ==>
              o.progress.startOffset == pr.endOffset && o.progress.endOffset == Min(pr.endOffset + CHUNK_SIZE, fileSize))
        && (o.progress.totalRead != pr.endOffset ==>
              o.progress.startOffset == pr.startOffset && o.progress.endOffset == pr.endOffset)
  {
    if pr.totalRead <= pr.startOffset {
      ReadStepAtWindowStart(pr, fileSize, w, r, room, burst);
      var x := Negotiate(w, r, pr.startOffset, pr.endOffset);
      FetchAdvances(pr, fileSize, x.sink, x.source, room, burst);
    } else {
      FetchAdvances(pr, fileSize, w, r, room, burst);
    }
  }

  /** The data read proper: the next n bytes of the stream, counted once. */
  lemma FetchAdvances(pr: Progress, fileSize: nat, w: Sink, r: Source, room: nat, burst: nat)
    ensures var o := Fetch(pr, fileSize, w, r, room, burst);
      o.err.None? ==>
        var n := |o.data|;
        && n <= room && o.writer == w
        && o.reader.rest == r.rest[n..] && o.data == r.rest[..n]
        && o.progress.totalRead == pr.totalRead + n
        && (o.progress.totalRead == pr.endOffset ==>
              o.progress.startOffset == pr.endOffset && o.progress.endOffset == Min(pr.endOffset + CHUNK_SIZE, fileSize))
        && (o.progress.totalRead != pr.endOffset ==>
              o.progress.startOffset == pr.startOffset && o.progress.endOffset == pr.endOffset)
  {
  }

  /** The data read keeps the reader in its window, or moves it to the next
      window when it reads up to the end of the window. */
  lemma FetchFollowsWindows(pr: Progress, fileSize: nat, k: nat, w: Sink, r: Source, room: nat, burst: nat)
    requires InWindow(pr, fileSize, k)
    ensures var o := Fetch(pr, fileSize, w, r, room, burst);
      InWindow(o.progress, fileSize, if CompletesWindow(pr, o) then k + 1 else k)
  {
  }

  /** Every call of Read streams the windows in order: the reader stays in
      Window(k) until it reads up to its end, then moves to Window(k + 1). */
  lemma ReadStepFollowsWindows(pr: Progress, fileSize: nat, k: nat, w: Sink, r: Source, room: nat, burst: nat)
    requires InWindow(pr, fileSize, k)
    ensures var o := ReadStep(pr, fileSize, w, r, room, burst);
      InWindow(o.progress, fileSize, if CompletesWindow(pr, o) then k + 1 else k)
  {
    if pr.totalRead != fileSize {
      if pr.totalRead <= pr.startOffset {
        var x := Negotiate(w, r, pr.startOffset, pr.endOffset);
        FetchFollowsWindows(pr, fileSize, k, x.sink, x.source, room, burst);
      } else {
        FetchFollowsWindows(pr, fileSize, k, w, r, room, burst);
      }
    }
  }

  /** The range Read asks for in Window(k) is Window(k) itself. */
  lemma RangeRequestedIsWindow(pr: Progress, fileSize: nat, k: nat, w: Sink, r: Source, room: nat, burst: nat)
    requires InWindow(pr, fileSize, k) && pr.totalRead <= pr.startOffset && pr.totalRead != fileSize
    ensures ReadStep(pr, fileSize, w, r, room, burst).writer
         == SendKeyValue(w, RANGE_KEY, RangeValue(Window(k, fileSize).0, Window(k, fileSize).1)).sink
  {
    NegotiationOnlyAtWindowStart(pr, fileSize, w, r, room, burst);
  }

  // ---------------------------------------------------------------------------
  // Properties of the negotiation

  /** The range value names its range: no two ranges share a value. */
  lemma RangeValueInjective(s1: nat, e1: nat, s2: nat, e2: nat)
    requires RangeValue(s1, e1) == RangeValue(s2, e2)
    ensures s1 == s2 && e1 == e2
  {
    var x := RangeValue(s1, e1);
    assert COLON !in Decimal(s1) && COLON !in Decimal(s2);
    BeforeSeparator(Decimal(s1), COLON, Decimal(e1));
    BeforeSeparator(Decimal(s2), COLON, Decimal(e2));
    DecimalInjective(s1, s2);
    assert Decimal(e1) == x[|Decimal(s1)| + 1..] == Decimal(e2);
    DecimalInjective(e1, e2);
  }

  /** Only the echo of the very range requested is accepted. */
  lemma RangeMessageInjective(s1: nat, e1: nat, s2: nat, e2: nat)
    ensures Message(RANGE_KEY, RangeValue(s1, e1)) == Message(RANGE_KEY, RangeValue(s2, e2)) ==> s1 == s2 && e1 == e2
  {
    if Message(RANGE_KEY, RangeValue(s1, e1)) == Message(RANGE_KEY, RangeValue(s2, e2)) {
      var m := Message(RANGE_KEY, RangeValue(s1, e1));
      assert RangeValue(s1, e1) == m[|RANGE_KEY| + 1..] == RangeValue(s2, e2);
      RangeValueInjective(s1, e1, s2, e2);
    }
  }

  /** A range request for int64 offsets fits the 16-bit length prefix. */
  lemma RangeMessageShort(start: nat, end: nat)
    requires start <= MAX_INT64 && end <= MAX_INT64
    ensures |Message(RANGE_KEY, RangeValue(start, end))| < 0x1_0000
  {
    assert Pow10(5) == 100_000;
    assert Pow10(10) == 10_000_000_000;
    assert Pow10(15) == 1_000_000_000_000_000;
    assert MAX_INT64 < Pow10(19);
    DecimalLength(start, 19);
    DecimalLength(end, 19);
  }

  /** A server that echoes the request passes the check, and the raw bytes of
      the window follow the echo. */
  lemma EchoAccepted(w: Sink, start: nat, end: nat, tail: seq<byte>, reset: bool)
    requires !w.failed && w.linkUp
    requires start <= MAX_INT64 && end <= MAX_INT64
    ensures Negotiate(w, Source(Frame(RANGE_KEY, RangeValue(start, end)) + tail, reset), start, end)
         == Exchange(w.(wire := w.wire + w.pending + Frame(RANGE_KEY, RangeValue(start, end)), pending := []),
                     Source(tail, reset), None)
  {
    RangeMessageShort(start, end);
    FrameRoundTrip(RANGE_KEY, RangeValue(start, end), tail, reset);
  }

  /** At the start of a window, a server that echoes the request and then has
      the whole window ready hands it out in one call of a window-sized read,
      and the reader moves on to the next window. */
  lemma WindowDelivered(pr: Progress, fileSize: nat, w: Sink, chunk: seq<byte>, tail: seq<byte>, room: nat)
    requires pr.totalRead == pr.startOffset != fileSize
    requires pr.endOffset <= MAX_INT64 && 0 < |chunk| == pr.endOffset - pr.startOffset <= room
    requires !w.failed && w.linkUp
    ensures var request := Frame(RANGE_KEY, RangeValue(pr.startOffset, pr.endOffset));
      ReadStep(pr, fileSize, w, Source(request + (chunk + tail), false), room, |chunk|)
        == Outcome(Progress(pr.endOffset, pr.endOffset, NextEnd(pr.endOffset, fileSize)),
                   w.(wire := w.wire + w.pending + request, pending := []),
                   Source(tail, false), chunk, None)
  {
    var request := Frame(RANGE_KEY, RangeValue(pr.startOffset, pr.endOffset));
    EchoAccepted(w, pr.startOffset, pr.endOffset, chunk + tail, false);
    ReadStepAtWindowStart(pr, fileSize, w, Source(request + (chunk + tail), false), room, |chunk|);
    WholeWindowFetched(pr, fileSize, w.(wire := w.wire + w.pending + request, pending := []), chunk, tail, room);
  }

  /** After a successful negotiation, Read goes on with the data read. */
  lemma ReadStepAtWindowStart(pr: Progress, fileSize: nat, w: Sink, r: Source, room: nat, burst: nat)
    requires pr.totalRead <= pr.startOffset && pr.totalRead != fileSize
    ensures var x := Negotiate(w, r, pr.startOffset, pr.endOffset);
      x.err.None? ==> ReadStep(pr, fileSize, w, r, room, burst) == Fetch(pr, fileSize, x.sink, x.source, room, burst)
  {
  }

  /** The read after the echo: with the whole window ready, it is handed out at once. */
  lemma WholeWindowFetched(pr: Progress, fileSize: nat, w: Sink, chunk: seq<byte>, tail: seq<byte>, room: nat)
    requires pr.totalRead == pr.startOffset && 0 < |chunk| == pr.endOffset - pr.startOffset <= room
    ensures Fetch(pr, fileSize, w, Source(chunk + tail, false), room, |chunk|)
         == Outcome(Progress(pr.endOffset, pr.endOffset, NextEnd(pr.endOffset, fileSize)),
                    w, Source(tail, false), chunk, None)
  {
    var got := ReadSome(Source(chunk + tail, false), room, |chunk|);
    assert got.result.value == chunk by {
      assert |got.result.value| == |chunk|;
      assert chunk + tail == got.result.value + got.source.rest;
    }
  }

  /** A well-framed echo of any other range is a mismatch. */
  lemma OtherRangeRejected(w: Sink, start: nat, end: nat, s2: nat, e2: nat, tail: seq<byte>, reset: bool)
    requires !w.failed
    requires (s2, e2) != (start, end) && s2 <= MAX_INT64 && e2 <= MAX_INT64
    ensures Negotiate(w, Source(Frame(RANGE_KEY, RangeValue(s2, e2)) + tail, reset), start, end).err
         == Some(RangeMismatch)
  {
    RangeMessageShort(s2, e2);
    FrameRoundTrip(RANGE_KEY, RangeValue(s2, e2), tail, reset);
    RangeMessageInjective(s2, e2, start, end);
  }

  /** A server that closes before its reply makes the negotiation report a
      clean end of stream, which the reader hands to its caller as is. */
  lemma ClosedBeforeReply(w: Sink, start: nat, end: nat)
    requires !w.failed
    ensures Negotiate(w, Source([], false), start, end).err == Some(EOF)
  {
    assert ReadMetaData(Source([], false)).result == Err(EOF) by {
      ReadMetaDataFailures(Source([], false));
    }
  }

  /** A connection closed cleanly in the middle of a window is reported as a
      plain end of stream, the same error Read gives after the last byte, so a
      caller copying until EOF takes the truncated image for a whole one. */
  lemma ClosedMidWindow(pr: Progress, fileSize: nat, w: Sink, room: nat, burst: nat)
    requires 0 < room && pr.startOffset < pr.totalRead != fileSize
    ensures ReadStep(pr, fileSize, w, Source([], false), room, burst)
         == Outcome(pr, w, Source([], false), [], Some(EOF))
  {
  }

  // ---------------------------------------------------------------------------
  // Properties of the windows

  /** From the second window on, and as long as its start k * 16 MiB is still
      within the file, window k is [k * 16 MiB, min((k + 1) * 16 MiB, fileSize)):
      the windows follow each other without gap, none is longer than a chunk
      and none reaches past the end of the file. */
  lemma {:induction false} WindowClosedForm(k: nat, fileSize: nat)
    requires 1 <= k && k * CHUNK_SIZE <= fileSize
    ensures Window(k, fileSize).0 == k * CHUNK_SIZE == Window(k - 1, fileSize).1
    ensures Window(k, fileSize).1 == Min((k + 1) * CHUNK_SIZE, fileSize)
    ensures Window(k, fileSize).1 - Window(k, fileSize).0 <= CHUNK_SIZE
  {
    if k > 1 {
      WindowClosedForm(k - 1, fileSize);
    }
  }

  /** Past the end of a file of at least one chunk, every window is the empty
      window [fileSize, fileSize): the start stops at fileSize instead of
      moving on to k * 16 MiB. */
  lemma {:induction false} WindowsPastTheEnd(k: nat, fileSize: nat)
    requires 1 <= k && CHUNK_SIZE <= fileSize < k * CHUNK_SIZE
    ensures Window(k, fileSize) == (fileSize, fileSize)
  {
    if fileSize < (k - 1) * CHUNK_SIZE {
      WindowsPastTheEnd(k - 1, fileSize);
    } else {
      WindowClosedForm(k - 1, fileSize);
    }
  }

  /** The first window is always [0, 16 MiB), even for a smaller file. */
  lemma FirstWindowIgnoresFileSize(fileSize: nat)
    ensures Window(0, fileSize) == (0, CHUNK_SIZE)
    ensures fileSize < CHUNK_SIZE ==> Window(0, fileSize).1 > fileSize
  {
  }

  /** A 40 MiB file is read in the windows [0, 16 MiB), [16 MiB, 32 MiB), [32 MiB, 40 MiB):
      by ReadStepFollowsWindows these are the windows a Downloader streams in turn. */
  lemma FortyMebibyteWindows()
    ensures Window(0, 40 * 1024 * 1024) == (0, 16 * 1024 * 1024)
    ensures Window(1, 40 * 1024 * 1024) == (16 * 1024 * 1024, 32 * 1024 * 1024)
    ensures Window(2, 40 * 1024 * 1024) == (32 * 1024 * 1024, 40 * 1024 * 1024)
    // once the last byte is read the window is empty, and Read only says DONE=
    ensures Window(3, 40 * 1024 * 1024) == (40 * 1024 * 1024, 40 * 1024 * 1024)
  {
    WindowClosedForm(2, 40 * 1024 * 1024);
  }
}
