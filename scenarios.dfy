/** Whole downloads driven through Downloader.Open and Downloader.Read, as a
    caller of client/downloader.go would drive them, against a server that
    behaves as the protocol expects. */
module DownloadScenarios {
  import opened Text
  import opened Framing
  import opened Downloading

  /** A zero-byte image: every Read reports the end of the stream at once, and
      the wire carries the handshake, the token and one DONE= per call, but no
      range request. */
  method EmptyImage(w: Sink, r: Source, token: seq<byte>, room: nat, burst: nat)
    returns (first: Option<Error>, second: Option<Error>, wire: seq<byte>)
    requires !w.failed && w.linkUp
    ensures first == second == Some(EOF)
    ensures wire == w.wire + w.pending + HANDSHAKE + Frame(TOKEN_KEY, token)
                    + Frame(DONE_KEY, []) + Frame(DONE_KEY, [])
  {
    var d := Downloader.Open(w, r, token, 0);
    var p := new byte[room];
    var n;
    n, first := d.Read(p, burst);
    n, second := d.Read(p, burst);
    wire := d.connWriter.wire;
  }

  /** A 32 MiB image served in two windows: each window is asked for, echoed
      and handed out whole by one Read into a 16 MiB buffer, and the third Read
      says DONE= and reports the end of the stream. */
  method TwoChunkImage(w: Sink, token: seq<byte>, firstChunk: seq<byte>, secondChunk: seq<byte>)
    returns (delivered: seq<byte>, last: Option<Error>, wire: seq<byte>)
    requires !w.failed && w.linkUp
    requires |firstChunk| == CHUNK_SIZE && |secondChunk| == CHUNK_SIZE
    ensures delivered == firstChunk + secondChunk
    ensures last == Some(EOF)
    ensures wire == w.wire + w.pending + HANDSHAKE + Frame(TOKEN_KEY, token)
                    + Frame(RANGE_KEY, RangeValue(0, CHUNK_SIZE))
                    + Frame(RANGE_KEY, RangeValue(CHUNK_SIZE, 2 * CHUNK_SIZE))
                    + Frame(DONE_KEY, [])
  {
    var request1 := Frame(RANGE_KEY, RangeValue(0, CHUNK_SIZE));
    var request2 := Frame(RANGE_KEY, RangeValue(CHUNK_SIZE, 2 * CHUNK_SIZE));
    var d := Downloader.Open(w, Source(request1 + (firstChunk + (request2 + (secondChunk + []))), false),
                             token, 2 * CHUNK_SIZE);
    var p := new byte[CHUNK_SIZE];
    assert w.wire + (w.pending + HANDSHAKE) == w.wire + w.pending + HANDSHAKE;
    var first := ReadWindow(d, p, firstChunk, request2 + (secondChunk + []));
    var second := ReadWindow(d, p, secondChunk, []);
    delivered := first + second;
    ghost var before := d.connWriter.wire;
    assert before + [] == before;
    var n;
    n, last := d.Read(p, CHUNK_SIZE);
    wire := d.connWriter.wire;
  }

  /** One Read at the start of a window whose echo and bytes are all waiting. */
  method ReadWindow(d: Downloader, p: array<byte>, chunk: seq<byte>, tail: seq<byte>) returns (data: seq<byte>)
    requires d.Valid() && d.totalRead == d.startOffset != d.fileSize
    requires d.endOffset <= MAX_INT64 && 0 < |chunk| == d.endOffset - d.startOffset <= p.Length
    requires !d.connWriter.failed && d.connWriter.linkUp && d.connWriter.pending == []
    requires d.connReader == Source(Frame(RANGE_KEY, RangeValue(d.startOffset, d.endOffset)) + (chunk + tail), false)
    modifies d, p
    ensures d.Valid() && data == chunk && d.windowIndex == old(d.windowIndex) + 1
    ensures d.Position() == Progress(old(d.endOffset), old(d.endOffset), NextEnd(old(d.endOffset), d.fileSize))
    ensures d.connWriter
         == old(d.connWriter).(wire := old(d.connWriter.wire) + Frame(RANGE_KEY, RangeValue(old(d.startOffset), old(d.endOffset))))
    ensures d.connReader == Source(tail, false)
  {
    WindowDelivered(d.Position(), d.fileSize, d.connWriter, chunk, tail, p.Length);
    assert d.connWriter.wire + d.connWriter.pending == d.connWriter.wire;
    var n, err := d.Read(p, |chunk|);
    data := p[..n];
  }
}
