/** The framed key/value codec of the download protocol (client/downloader.go:68-126).

    A meta message "key=value" travels as a 2-byte big-endian length, the bytes
    of the message and the terminator 0x00 0x00. The connection is seen through
    its two buffered ends: a Sink (the bufio.Writer the client writes into) and
    a Source (the bufio.Reader it reads the server's bytes from). Both are values
    here; an operation returns the new end together with its outcome. */
module Framing {
  import opened Text

  datatype Option<T> = None | Some(value: T)

  /** The errors the downloader can report. */
  datatype Error =
    | EmptyKey                     // sendKeyValue with a key of length 0
    | WriteFailed                  // the sticky error of the buffered writer
    | EOF                          // io.EOF: the connection closed before any byte was read
    | UnexpectedEOF                // io.ErrUnexpectedEOF: it closed part-way through a fixed-size read
    | ConnectionReset              // any other error of the underlying connection
    | BadTerminator(got: seq<byte>) // the two bytes after a payload were not 0x00 0x00
    | RangeMismatch                // the server did not echo the requested range

  datatype Result<T> = Ok(value: T) | Err(error: Error)

  const EQUALS: byte := 0x3D
  const TERMINATOR: seq<byte> := [0x00, 0x00]

  /** The text of a meta message: key + "=" + value. */
  function Message(key: seq<byte>, value: seq<byte>): seq<byte>
  {
    key + [EQUALS] + value
  }

  /** The two bytes binary.Write puts out for int16(n) in big-endian order:
      the conversion keeps only the low 16 bits of n. */
  function Int16BigEndian(n: nat): (r: seq<byte>)
    ensures |r| == 2
    ensures Uint16BigEndian(r) == n % 0x1_0000
  {
    var u := n % 0x1_0000;
    [u / 0x100, u % 0x100]
  }

  /** binary.BigEndian.Uint16: the length a 2-byte prefix announces. */
  function Uint16BigEndian(b: seq<byte>): nat
    requires |b| == 2
  {
    b[0] as int * 0x100 + b[1] as int
  }

  /** The bytes sendKeyValue puts on the wire for (key, value). */
  function Frame(key: seq<byte>, value: seq<byte>): (r: seq<byte>)
    ensures |r| == 4 + |Message(key, value)|
  {
    var msg := Message(key, value);
    Int16BigEndian(|msg|) + msg + TERMINATOR
  }

  /** A byte string that starts with a complete frame: a length prefix, that
      many payload bytes and the terminator. */
  predicate WellFramed(b: seq<byte>)
  {
    && 2 <= |b|
    && 4 + Uint16BigEndian(b[..2]) <= |b|
    && b[2 + Uint16BigEndian(b[..2])] == 0x00
    && b[3 + Uint16BigEndian(b[..2])] == 0x00
  }

  // ---------------------------------------------------------------------------
  // The writing end

  /** The buffered writer over the connection: what already reached the wire,
      what waits in the buffer, whether the writer holds a (sticky) error, and
      whether the connection currently accepts data. */
  datatype Sink = Sink(wire: seq<byte>, pending: seq<byte>, failed: bool, linkUp: bool)

  datatype Sent = Sent(sink: Sink, err: Option<Error>)

  /** bufio.Writer.Write of a few bytes: buffered, unless an earlier error sticks. */
  function Write(w: Sink, bytes: seq<byte>): Sent
  {
    if w.failed then Sent(w, Some(WriteFailed))
    else Sent(w.(pending := w.pending + bytes), None)
  }

  /** bufio.Writer.Flush: hands the buffer to the connection; a connection that
      is down leaves the buffer as it is and makes the error stick. */
  function Flush(w: Sink): Sent
  {
    if w.failed then Sent(w, Some(WriteFailed))
    else if w.pending == [] then Sent(w, None)
    else if w.linkUp then Sent(w.(wire := w.wire + w.pending, pending := []), None)
    else Sent(w.(failed := true), Some(WriteFailed))
  }

  /** sendEndOfMeta: writes the terminator and flushes, ignoring the flush's error. */
  function SendEndOfMeta(w: Sink): (r: Sent)
    ensures w.failed ==> r == Sent(w, Some(WriteFailed))
    ensures !w.failed && w.linkUp ==>
      r == Sent(w.(wire := w.wire + w.pending + TERMINATOR, pending := []), None)
    // a failed flush is not reported: the call succeeds and the error sticks
    ensures !w.failed && !w.linkUp ==>
      r == Sent(w.(pending := w.pending + TERMINATOR, failed := true), None)
  {
    var written := Write(w, TERMINATOR);
    if written.err.Some? then written
    else Sent(Flush(written.sink).sink, None)
  }

  /** sendKeyValue: writes the frame of key=value and flushes it. */
  function SendKeyValue(w: Sink, key: seq<byte>, value: seq<byte>): (r: Sent)
    ensures key == [] ==> r == Sent(w, Some(EmptyKey))
    ensures key != [] && w.failed ==> r == Sent(w, Some(WriteFailed))
    ensures key != [] && !w.failed && w.linkUp ==>
      r == Sent(w.(wire := w.wire + w.pending + Frame(key, value), pending := []), None)
    ensures key != [] && !w.failed && !w.linkUp ==>
      r == Sent(w.(pending := w.pending + Frame(key, value), failed := true), None)
  {
    if |key| <= 0 then Sent(w, Some(EmptyKey))
    else
      var msg := Message(key, value);
      var prefix := Write(w, Int16BigEndian(|msg|));
      if prefix.err.Some? then prefix
      else
        var payload := Write(prefix.sink, msg);
        if payload.err.Some? then payload
        else
          assert payload.sink.pending + TERMINATOR == w.pending + Frame(key, value);
          SendEndOfMeta(payload.sink)
  }

  // ---------------------------------------------------------------------------
  // The reading end

  /** The buffered reader over the connection: the bytes the server has still
      to deliver, and how the connection ends once they are used up (a reset
      rather than a clean close). */
  datatype Source = Source(rest: seq<byte>, reset: bool)

  datatype Taken = Taken(source: Source, result: Result<seq<byte>>)

  datatype Checked = Checked(source: Source, err: Option<Error>)

  /** The error the connection reports once all its bytes have been read. */
  function EndError(r: Source): Error
  {
    if r.reset then ConnectionReset else EOF
  }

  /** io.ReadFull, as binary.Read uses it: exactly k bytes, or an error after
      consuming what there was. */
  function ReadFull(r: Source, k: nat): (t: Taken)
    ensures t.source.reset == r.reset
    ensures t.result.Ok? <==> k <= |r.rest|
    ensures t.result.Ok? ==> t.result.value == r.rest[..k] && t.source.rest == r.rest[k..]
    ensures t.result.Err? ==> t.source.rest == []
    ensures t.result.Err? ==>
      t.result.error == if 0 < |r.rest| && !r.reset then UnexpectedEOF else EndError(r)
  {
    if k <= |r.rest| then Taken(r.(rest := r.rest[k..]), Ok(r.rest[..k]))
    else Taken(r.(rest := []), Err(if 0 < |r.rest| && !r.reset then UnexpectedEOF else EndError(r)))
  }

  /** bufio.Reader.Read into a buffer of `room` bytes: whatever is at hand, at
      most `room` bytes and at least one when the buffer has room. How many
      bytes the connection has ready is the network's choice, given as `burst`. */
  function ReadSome(r: Source, room: nat, burst: nat): (t: Taken)
    ensures t.source.reset == r.reset
    ensures t.result.Err? <==> 0 < room && r.rest == []
    ensures t.result.Err? ==> t.result.error == EndError(r) && t.source == r
    ensures t.result.Ok? ==> |t.result.value| <= room && r.rest == t.result.value + t.source.rest
    ensures t.result.Ok? && 0 < room ==> 0 < |t.result.value|
    ensures t.result.Ok? && burst <= room && burst <= |r.rest| && 0 < burst ==> |t.result.value| == burst
  {
    if room == 0 then Taken(r, Ok([]))
    else if r.rest == [] then Taken(r, Err(EndError(r)))
    else
      var k := Min(room, Min(|r.rest|, if burst == 0 then 1 else burst));
      assert r.rest == r.rest[..k] + r.rest[k..];
      Taken(r.(rest := r.rest[k..]), Ok(r.rest[..k]))
  }

  /** readEndOfMeta: the two bytes that must follow a payload. */
  function ReadEndOfMeta(r: Source): (c: Checked)
    ensures c.err.None? <==> 2 <= |r.rest| && r.rest[..2] == TERMINATOR
    ensures 2 <= |r.rest| ==> c.source.rest == r.rest[2..]
    ensures 2 <= |r.rest| && r.rest[..2] != TERMINATOR ==> c.err == Some(BadTerminator(r.rest[..2]))
  {
    var t := ReadFull(r, 2);
    if t.result.Err? then Checked(t.source, Some(t.result.error))
    else if t.result.value != TERMINATOR then Checked(t.source, Some(BadTerminator(t.result.value)))
    else Checked(t.source, None)
  }

  /** readMetaData: one framed message from the server. */
  function ReadMetaData(r: Source): (t: Taken)
    ensures t.source.reset == r.reset
    ensures t.result.Ok? <==> WellFramed(r.rest)
    ensures t.result.Ok? ==>
      var len := Uint16BigEndian(r.rest[..2]);
      t.result.value == r.rest[2..2 + len] && t.source.rest == r.rest[4 + len..]
  {
    var head := ReadFull(r, 2);
    if head.result.Err? then head
    else
      var len := Uint16BigEndian(head.result.value);
      var body := ReadFull(head.source, len);
      if body.result.Err? then body
      else
        var end := ReadEndOfMeta(body.source);
        if end.err.Some? then Taken(end.source, Err(end.err.value))
        else Taken(end.source, Ok(body.result.value))
  }

  /** The ways readMetaData fails: the length prefix, the payload or the
      terminator is cut short by the end of the connection, or the terminator
      is wrong. A read cut short after some bytes is io.ErrUnexpectedEOF, one
      that got no byte at all is whatever the connection ended with. */
  lemma ReadMetaDataFailures(r: Source)
    ensures |r.rest| < 2 ==>
      ReadMetaData(r) == Taken(r.(rest := []), Err(if |r.rest| == 1 && !r.reset then UnexpectedEOF else EndError(r)))
    ensures 2 <= |r.rest| < 2 + Uint16BigEndian(r.rest[..2]) ==>
      ReadMetaData(r) == Taken(r.(rest := []), Err(if 2 < |r.rest| && !r.reset then UnexpectedEOF else EndError(r)))
    ensures 2 <= |r.rest| && 2 + Uint16BigEndian(r.rest[..2]) <= |r.rest| < 4 + Uint16BigEndian(r.rest[..2]) ==>
      var len := Uint16BigEndian(r.rest[..2]);
      ReadMetaData(r) == Taken(r.(rest := []), Err(if 2 + len < |r.rest| && !r.reset then UnexpectedEOF else EndError(r)))
    ensures 2 <= |r.rest| && 4 + Uint16BigEndian(r.rest[..2]) <= |r.rest| ==>
      var len := Uint16BigEndian(r.rest[..2]);
      r.rest[2 + len..4 + len] != TERMINATOR ==>
        ReadMetaData(r) == Taken(r.(rest := r.rest[4 + len..]), Err(BadTerminator(r.rest[2 + len..4 + len])))
  {
    if 2 <= |r.rest| {
      var len := Uint16BigEndian(r.rest[..2]);
      if 2 + len <= |r.rest| {
        assert r.rest[2..][len..] == r.rest[2 + len..];
      }
      if 4 + len <= |r.rest| {
        assert r.rest[2 + len..][..2] == r.rest[2 + len..4 + len];
        assert r.rest[2 + len..][2..] == r.rest[4 + len..];
      }
    }
  }

  /** Reading back a frame yields its message and consumes exactly the frame,
      as long as the message is short enough for its 16-bit length. */
  lemma {:induction false} FrameRoundTrip(key: seq<byte>, value: seq<byte>, tail: seq<byte>, reset: bool)
    requires |Message(key, value)| < 0x1_0000
    ensures ReadMetaData(Source(Frame(key, value) + tail, reset))
         == Taken(Source(tail, reset), Ok(Message(key, value)))
  {
    var msg := Message(key, value);
    var b := Frame(key, value) + tail;
    assert b[..2] == Int16BigEndian(|msg|);
    assert Uint16BigEndian(b[..2]) == |msg|;
    assert b[2..2 + |msg|] == msg;
    assert b[2 + |msg|] == 0x00 && b[3 + |msg|] == 0x00;
    assert b[4 + |msg|..] == tail;
  }

  /** What sendKeyValue puts on a working connection is read back by
      readMetaData as key=value, consuming 4 + |key=value| bytes. */
  lemma SendKeyValueRoundTrip(w: Sink, key: seq<byte>, value: seq<byte>, tail: seq<byte>, reset: bool)
    requires key != [] && !w.failed && w.linkUp
    requires |Message(key, value)| < 0x1_0000
    ensures var sent := SendKeyValue(w, key, value);
      && sent.err == None
      && sent.sink.wire == w.wire + w.pending + Frame(key, value)
      && var written := sent.sink.wire[|w.wire| + |w.pending|..];
      && |written| == 4 + |Message(key, value)|
      && ReadMetaData(Source(written + tail, reset)) == Taken(Source(tail, reset), Ok(Message(key, value)))
  {
    var sent := SendKeyValue(w, key, value);
    assert sent.sink.wire[|w.wire| + |w.pending|..] == Frame(key, value);
    FrameRoundTrip(key, value, tail, reset);
  }

  /** The 16-bit length wraps around: a message of 65536 bytes goes out with
      the length prefix 0, so the reader does not get it back. */
  lemma LongMessageLengthWraps(key: seq<byte>, value: seq<byte>, tail: seq<byte>, reset: bool)
    requires |Message(key, value)| == 0x1_0000
    ensures Frame(key, value)[..2] == [0x00, 0x00]
    ensures ReadMetaData(Source(Frame(key, value) + tail, reset)).result != Ok(Message(key, value))
  {
    var b := Frame(key, value) + tail;
    assert b[..2] == Int16BigEndian(0x1_0000) == [0x00, 0x00];
  }
}
