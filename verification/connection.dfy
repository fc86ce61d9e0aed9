/**
 * The TLS connection to a Chromecast (src/chromecast_connection.cpp): the
 * length-prefixed framing of serialized cast messages, the single-writer
 * FIFO write queue, and the connect / handshake / header / body read loop
 * with its error classification. Socket, TLS and protobuf operations are not
 * modelled: each asynchronous operation's completion is an input event that
 * carries its outcome.
 */
module ChromecastConnection {
  import opened Wrappers
  import opened Bytes

  /** Messages longer than 1 MiB are refused. */
  const MAX_MESSAGE_LENGTH: nat := 0x10_0000

  /** A serialized message; `ByteSize()` is an `int`, so it is below 2^31. */
  type Payload = p: seq<byte> | |p| < 0x8000_0000

  /**
   * `send_message`'s buffer: the payload length as a big-endian uint32,
   * then the payload.
   */
  function Frame(payload: Payload): (f: seq<byte>)
    ensures |f| == 4 + |payload|
    ensures f[4..] == payload
    ensures ReadBE32(f[..4]) == |payload|
  {
    BE32RoundTrip(|payload|);
    var f := BE32(|payload|) + payload;
    assert f[..4] == BE32(|payload|);
    f
  }

  // ---------------------------------------------------------------------------
  // Errors

  /** Completion codes of asynchronous operations, as far as the code tells them apart. */
  datatype IoError = OperationAborted | Eof | SslShortRead | OtherError

  /** `is_connection_end`: the peer closed the stream (plain EOF or a TLS short read). */
  predicate IsConnectionEnd(e: IoError) {
    e == Eof || e == SslShortRead
  }

  datatype Failure = ConnectFailed | HandshakeFailed | TooBig(length: nat) | ReadFailed | WriteFailed

  datatype Effect =
    | Connected(ok: bool)          // the connected handler
    | ReportError(failure: Failure)  // `report_error`: the socket is closed, then the error handler runs
    | ShutdownTls                  // an orderly TLS shutdown is started
    | Delivered(message: seq<byte>) // the messages handler
    | StartWrite(frame: seq<byte>)  // an `async_write` is issued
    | Abort                         // a failed `assert`: the process aborts

  /**
   * `read_op_handler_error`: a cancelled read shuts TLS down if the socket is
   * still open; the peer closing reports `connected(false)`; anything else is
   * reported as an error.
   */
  function OnReadError(e: IoError, socketOpen: bool): (effects: seq<Effect>)
    ensures |effects| <= 1
    ensures effects == [Connected(false)] <==> IsConnectionEnd(e)
    ensures effects == [ShutdownTls] <==> e == OperationAborted && socketOpen
    ensures effects == [ReportError(ReadFailed)] <==> e == OtherError
    ensures effects == [] <==> e == OperationAborted && !socketOpen
  {
    if e == OperationAborted then (if socketOpen then [ShutdownTls] else [])
    else if IsConnectionEnd(e) then [Connected(false)]
    else [ReportError(ReadFailed)]
  }

  // ---------------------------------------------------------------------------
  // Reading

  /** Which asynchronous operation of the read side is outstanding, if any. */
  datatype Phase = Connecting | Handshaking | AwaitHeader | AwaitBody(length: nat) | Stopped | Aborted

  /**
   * The read side: its phase, whether the socket is open, and the read
   * buffer's size. The buffer is allocated on its first growth, which makes
   * the size positive, so a size of 0 means there is no buffer (a null pointer).
   */
  datatype Reader = Reader(phase: Phase, socketOpen: bool, bufferSize: nat)

  /** A body is only awaited for an accepted length, and the buffer can hold it. */
  ghost predicate ReaderOk(r: Reader) {
    r.phase.AwaitBody? ==> r.phase.length <= MAX_MESSAGE_LENGTH && r.phase.length <= r.bufferSize
  }

  /** `connect`: an open socket, a pending connect, no buffer yet. */
  function NewReader(): (r: Reader)
    ensures ReaderOk(r) && r.phase == Connecting
  {
    Reader(Connecting, true, 0)
  }

  /** The completion of one read-side operation, with its outcome. */
  datatype ReadEvent =
    | ConnectDone(error: Option<IoError>)
    | HandshakeDone(error: Option<IoError>)
    | HeaderDone(header: Result<seq<byte>, IoError>)
    | BodyDone(body: Result<seq<byte>, IoError>)

  /**
   * A completion only arrives for the operation that is outstanding, and a
   * successful `async_read` fills exactly the bytes asked for.
   */
  predicate Possible(r: Reader, ev: ReadEvent) {
    match ev
    case ConnectDone(_) => r.phase == Connecting
    case HandshakeDone(_) => r.phase == Handshaking
    case HeaderDone(h) => r.phase == AwaitHeader && (h.Success? ==> |h.value| == 4)
    case BodyDone(b) => r.phase.AwaitBody? && (b.Success? ==> |b.value| == r.phase.length)
  }

  /**
   * `handle_header_read`'s buffer rule: grow to `length * 1.5` (truncated;
   * exact in a double for lengths up to 2^20) only when too small.
   */
  function GrowBuffer(size: nat, length: nat): (s: nat)
    ensures s >= length && s >= size
    ensures size >= length ==> s == size
    ensures size < length ==> s * 2 <= length * 3 < s * 2 + 2
    ensures s == 0 <==> size == 0 && length == 0
  {
    if size < length then length * 3 / 2 else size
  }

  /**
   * One read-side completion (`connect_handler`, `handshake_handler`,
   * `handle_header_read`, `handle_message_data_read`).
   */
  function ReadStep(r: Reader, ev: ReadEvent): (out: (Reader, seq<Effect>))
    requires ReaderOk(r) && Possible(r, ev)
    ensures ReaderOk(out.0)
    ensures out.0.bufferSize >= r.bufferSize
    ensures ev.HeaderDone? && ev.header.Success? ==>
              var length := ReadBE32(ev.header.value);
              if length > MAX_MESSAGE_LENGTH then
                out == (Reader(Stopped, false, r.bufferSize), [ReportError(TooBig(length))])
              else if length == 0 && r.bufferSize == 0 then
                out == (r.(phase := Aborted), [Abort])
              else
                out.0.phase == AwaitBody(length) && out.1 == [] && out.0.bufferSize >= 1
    ensures ev.BodyDone? && ev.body.Success? ==>
              out == (r.(phase := AwaitHeader), [Delivered(ev.body.value)])
    ensures ev.HandshakeDone? && ev.error.None? ==>
              out == (r.(phase := AwaitHeader), [Connected(true)])
    ensures (ev.HeaderDone? && ev.header.Failure?) || (ev.BodyDone? && ev.body.Failure?) ==>
              out.1 == OnReadError(if ev.HeaderDone? then ev.header.error else ev.body.error, r.socketOpen)
  {
    match ev
    case ConnectDone(error) =>
      (match error
       case None => (r.(phase := Handshaking), [])
       case Some(e) =>
         if e == OperationAborted then (r.(phase := Stopped), [])
         else (Reader(Stopped, false, r.bufferSize), [ReportError(ConnectFailed)]))
    case HandshakeDone(error) =>
      (match error
       case None => (r.(phase := AwaitHeader), [Connected(true)])
       case Some(e) =>
         if e == OperationAborted then (r.(phase := Stopped), [])
         else (Reader(Stopped, false, r.bufferSize), [ReportError(HandshakeFailed)]))
    case HeaderDone(Failure(e)) => ReadFailure(r, e)
    case HeaderDone(Success(header)) =>
      var length := ReadBE32(header);
      if length > MAX_MESSAGE_LENGTH then (Reader(Stopped, false, r.bufferSize), [ReportError(TooBig(length))])
      else
        var size := GrowBuffer(r.bufferSize, length);
        if size == 0 then (r.(phase := Aborted), [Abort])
        else (Reader(AwaitBody(length), r.socketOpen, size), [])
    case BodyDone(Failure(e)) => ReadFailure(r, e)
    case BodyDone(Success(body)) => (r.(phase := AwaitHeader), [Delivered(body)])
  }

  /** A failed read: nothing more is read; a reported error also closes the socket. */
  function ReadFailure(r: Reader, e: IoError): (out: (Reader, seq<Effect>))
    ensures out.1 == OnReadError(e, r.socketOpen)
    ensures out.0.phase == Stopped && out.0.bufferSize == r.bufferSize
  {
    var effects := OnReadError(e, r.socketOpen);
    (Reader(Stopped, r.socketOpen && e != OtherError, r.bufferSize), effects)
  }

  /** The completions `async_read` produces for one frame sent by the peer. */
  function FrameEvents(payload: Payload): seq<ReadEvent> {
    var f := Frame(payload);
    [HeaderDone(Success(f[..4])), BodyDone(Success(f[4..]))]
  }

  function AllFrameEvents(payloads: seq<Payload>): seq<ReadEvent>
    decreases |payloads|
  {
    if |payloads| == 0 then [] else FrameEvents(payloads[0]) + AllFrameEvents(payloads[1..])
  }

  function DeliveredBy(effects: seq<Effect>): seq<seq<byte>>
    decreases |effects|
  {
    if |effects| == 0 then []
    else (if effects[0].Delivered? then [effects[0].message] else []) + DeliveredBy(effects[1..])
  }

  lemma {:induction false} DeliveredByAppend(a: seq<Effect>, b: seq<Effect>)
    ensures DeliveredBy(a + b) == DeliveredBy(a) + DeliveredBy(b)
    decreases |a|
  {
    if |a| == 0 {
      assert a + b == b;
    } else {
      assert (a + b)[0] == a[0];
      assert (a + b)[1..] == a[1..] + b;
      DeliveredByAppend(a[1..], b);
    }
  }

  /** Feed read completions in order; the run ends at one that cannot arrive. */
  function ReadRun(r: Reader, evs: seq<ReadEvent>): (out: (Reader, seq<Effect>))
    requires ReaderOk(r)
    ensures ReaderOk(out.0)
    ensures out.0.bufferSize >= r.bufferSize
    decreases |evs|
  {
    if |evs| == 0 || !Possible(r, evs[0]) then (r, [])
    else
      var first := ReadStep(r, evs[0]);
      var rest := ReadRun(first.0, evs[1..]);
      (rest.0, first.1 + rest.1)
  }

  /**
   * The two read completions of one accepted frame, followed by `more`: the
   * header step and the body step deliver the payload, and reading goes on
   * from a state that differs from `r` only in the buffer size.
   */
  lemma FrameThen(r: Reader, payload: Payload, more: seq<ReadEvent>)
    requires ReaderOk(r) && r.phase == AwaitHeader
    requires |payload| <= MAX_MESSAGE_LENGTH && (r.bufferSize > 0 || |payload| > 0)
    ensures var next := r.(bufferSize := GrowBuffer(r.bufferSize, |payload|));
            && ReaderOk(next)
            && ReadRun(r, FrameEvents(payload) + more)
               == (ReadRun(next, more).0, [Delivered(payload)] + ReadRun(next, more).1)
  {
    var f := Frame(payload);
    var evs := FrameEvents(payload) + more;
    assert evs[0] == HeaderDone(Success(f[..4]));
    assert evs[1] == BodyDone(Success(f[4..]));
    assert evs[1..][1..] == more;
    var s1 := ReadStep(r, evs[0]);
    assert s1 == (Reader(AwaitBody(|payload|), r.socketOpen, GrowBuffer(r.bufferSize, |payload|)), []);
    var s2 := ReadStep(s1.0, evs[1]);
    assert s2 == (s1.0.(phase := AwaitHeader), [Delivered(payload)]);
    var tail := ReadRun(s2.0, more);
    assert ReadRun(s1.0, evs[1..]) == (tail.0, s2.1 + tail.1);
    assert ReadRun(r, evs) == (tail.0, [] + (s2.1 + tail.1));
    assert s2.0 == r.(bufferSize := GrowBuffer(r.bufferSize, |payload|));
    assert [] + (s2.1 + tail.1) == [Delivered(payload)] + tail.1;
  }

  /**
   * One frame of an accepted size is read as its header and then its body:
   * the payload is delivered whole, the buffer is large enough for it, and
   * the next header read is outstanding. (An empty frame before any buffer
   * exists aborts instead: `EmptyFirstFrameAborts`.)
   */
  lemma FrameRoundTrip(r: Reader, payload: Payload)
    requires ReaderOk(r) && r.phase == AwaitHeader
    requires |payload| <= MAX_MESSAGE_LENGTH && (r.bufferSize > 0 || |payload| > 0)
    ensures var out := ReadRun(r, FrameEvents(payload));
            out == (r.(bufferSize := GrowBuffer(r.bufferSize, |payload|)), [Delivered(payload)])
            && out.0.bufferSize >= |payload|
  {
    FrameThen(r, payload, []);
    assert FrameEvents(payload) + [] == FrameEvents(payload);
    var next := r.(bufferSize := GrowBuffer(r.bufferSize, |payload|));
    assert ReadRun(next, []) == (next, []);
    assert [Delivered(payload)] + [] == [Delivered(payload)];
  }

  /**
   * An empty frame while no read buffer has been allocated fails the
   * `read_buffer != nullptr` assertion: the process aborts and nothing after
   * the header is read.
   */
  lemma EmptyFirstFrameAborts(r: Reader, more: seq<ReadEvent>)
    requires ReaderOk(r) && r.phase == AwaitHeader && r.bufferSize == 0
    ensures ReadRun(r, FrameEvents([]) + more) == (r.(phase := Aborted), [Abort])
  {
    var evs := FrameEvents([]) + more;
    var f := Frame([]);
    assert evs[0] == HeaderDone(Success(f[..4]));
    var s1 := ReadStep(r, evs[0]);
    assert s1 == (r.(phase := Aborted), [Abort]);
    assert ReadRun(s1.0, evs[1..]) == (s1.0, []);
    assert [Abort] + [] == [Abort];
  }

  /** A header announcing more than 1 MiB stops reading with an error before any body read. */
  lemma OversizedFrameRefused(r: Reader, header: seq<byte>, body: seq<byte>)
    requires ReaderOk(r) && r.phase == AwaitHeader
    requires |header| == 4 && ReadBE32(header) > MAX_MESSAGE_LENGTH
    ensures ReadRun(r, [HeaderDone(Success(header)), BodyDone(Success(body))])
            == (Reader(Stopped, false, r.bufferSize), [ReportError(TooBig(ReadBE32(header)))])
  {
    var evs := [HeaderDone(Success(header)), BodyDone(Success(body))];
    var s1 := ReadStep(r, evs[0]);
    assert s1.0.phase == Stopped;
    assert ReadRun(s1.0, evs[1..]) == (s1.0, []);
    assert ReadRun(r, evs) == (s1.0, s1.1 + []);
    assert s1.1 + [] == s1.1;
    assert s1 == (Reader(Stopped, false, r.bufferSize), [ReportError(TooBig(ReadBE32(header)))]);
  }

  /**
   * The read loop delivers every frame the peer sends, whole and in order,
   * and is then waiting for the next header, unless the very first frame is
   * empty while no buffer exists (`EmptyFirstFrameAborts`): once one frame is
   * read a buffer exists, so later empty frames are delivered.
   */
  lemma {:induction false} FramesDeliveredInOrder(r: Reader, payloads: seq<Payload>)
    requires ReaderOk(r) && r.phase == AwaitHeader
    requires forall i :: 0 <= i < |payloads| ==> |payloads[i]| <= MAX_MESSAGE_LENGTH
    requires r.bufferSize > 0 || |payloads| == 0 || |payloads[0]| > 0
    ensures var out := ReadRun(r, AllFrameEvents(payloads));
            out.0.phase == AwaitHeader && out.0.socketOpen == r.socketOpen
            && DeliveredBy(out.1) == payloads
    decreases |payloads|
  {
    if |payloads| > 0 {
      var more := AllFrameEvents(payloads[1..]);
      FrameThen(r, payloads[0], more);
      var next := r.(bufferSize := GrowBuffer(r.bufferSize, |payloads[0]|));
      FramesDeliveredInOrder(next, payloads[1..]);
      var rest := ReadRun(next, more);
      DeliveredByAppend([Delivered(payloads[0])], rest.1);
      assert DeliveredBy([Delivered(payloads[0])]) == [payloads[0]] by {
        assert [Delivered(payloads[0])][1..] == [];
      }
      assert payloads == [payloads[0]] + payloads[1..];
    }
  }

  // ---------------------------------------------------------------------------
  // Writing

  /**
   * `write_queue`, and whether an `async_write` of its front is outstanding.
   * `written` records the frames whose write completed, oldest first.
   */
  datatype Writer = Writer(queue: seq<seq<byte>>, inFlight: bool, written: seq<seq<byte>>)

  /** At most one write is outstanding, and it is the write of the queue's front. */
  ghost predicate WriterOk(w: Writer) {
    w.inFlight ==> |w.queue| > 0
  }

  function NewWriter(): (w: Writer)
    ensures WriterOk(w) && w.queue == [] && !w.inFlight
  {
    Writer([], false, [])
  }

  /**
   * `send_message`: the frame joins the back of the queue; a write is issued
   * only if the queue was empty, and then no write was outstanding.
   */
  function Send(w: Writer, payload: Payload): (out: (Writer, seq<Effect>))
    requires WriterOk(w)
    ensures WriterOk(out.0)
    ensures out.0.queue == w.queue + [Frame(payload)] && out.0.written == w.written
    ensures out.1 != [] <==> w.queue == []
    ensures out.1 != [] ==> !w.inFlight && out.1 == [StartWrite(Frame(payload))] && out.0.inFlight
    ensures out.1 == [] ==> out.0.inFlight == w.inFlight
    ensures Flowing(w) ==> Flowing(out.0)
  {
    var q := w.queue + [Frame(payload)];
    if |q| == 1 then (Writer(q, true, w.written), [StartWrite(q[0])])
    else (w.(queue := q), [])
  }

  /**
   * The completion of the outstanding write: on success the front is popped
   * and, if frames remain, the next front is written; a cancelled write ends
   * quietly; any other error is reported and nothing more is written.
   */
  function WriteDone(w: Writer, error: Option<IoError>): (out: (Writer, seq<Effect>))
    requires WriterOk(w) && w.inFlight
    ensures WriterOk(out.0)
    ensures error.None? ==>
              out.0.written == w.written + [w.queue[0]] && out.0.queue == w.queue[1..]
              && (out.1 != [] <==> |w.queue| > 1)
              && (out.1 != [] ==> out.1 == [StartWrite(w.queue[1])])
              && out.0.inFlight == (|w.queue| > 1) && Flowing(out.0)
    ensures error.Some? ==> out.0 == w.(inFlight := false)
    ensures error.Some? ==> (out.1 == [] <==> error.value == OperationAborted)
  {
    match error
    case None =>
      var q := w.queue[1..];
      if |q| > 0 then (Writer(q, true, w.written + [w.queue[0]]), [StartWrite(q[0])])
      else (Writer(q, false, w.written + [w.queue[0]]), [])
    case Some(e) =>
      (w.(inFlight := false), if e == OperationAborted then [] else [ReportError(WriteFailed)])
  }

  /** What the write side can be asked to do. */
  datatype WriteEvent = SendEvent(payload: Payload) | WriteOk

  function FramesOf(evs: seq<WriteEvent>): seq<seq<byte>>
    decreases |evs|
  {
    if |evs| == 0 then []
    else (if evs[0].SendEvent? then [Frame(evs[0].payload)] else []) + FramesOf(evs[1..])
  }

  /** Everything handed to the write side so far: written frames, then queued ones. */
  function Content(w: Writer): seq<seq<byte>> {
    w.written + w.queue
  }

  /** Without write errors, a write is outstanding exactly while the queue is not empty. */
  ghost predicate Flowing(w: Writer) {
    w.inFlight <==> |w.queue| > 0
  }

  /** One write-side event; a completion that cannot arrive (nothing outstanding) is not one. */
  function WriteStep(w: Writer, ev: WriteEvent): (out: Writer)
    requires Flowing(w)
    ensures Flowing(out)
    ensures Content(out) == Content(w) + FramesOf([ev])
    ensures |out.written| >= |w.written| && out.written[..|w.written|] == w.written
  {
    assert FramesOf([ev]) == (if ev.SendEvent? then [Frame(ev.payload)] else []) + FramesOf([]);
    match ev
    case SendEvent(p) => Send(w, p).0
    case WriteOk =>
      if w.inFlight then
        var out := WriteDone(w, None).0;
        assert w.queue == [w.queue[0]] + w.queue[1..];
        assert out.written[..|w.written|] == w.written;
        out
      else w
  }

  /**
   * Sends and successful write completions in any interleaving: frames are
   * written in the order they were sent, none is lost or repeated (written
   * frames followed by queued ones are exactly the frames sent), the written
   * log only grows, and the front of a non-empty queue is always being written.
   */
  function WriteRun(w: Writer, evs: seq<WriteEvent>): (out: Writer)
    requires Flowing(w)
    ensures Flowing(out)
    ensures Content(out) == Content(w) + FramesOf(evs)
    ensures |out.written| >= |w.written| && out.written[..|w.written|] == w.written
    decreases |evs|
  {
    if |evs| == 0 then w
    else
      var w1 := WriteStep(w, evs[0]);
      var out := WriteRun(w1, evs[1..]);
      assert FramesOf(evs) == FramesOf([evs[0]]) + FramesOf(evs[1..]) by {
        assert [evs[0]][1..] == [];
      }
      assert out.written[..|w.written|] == w1.written[..|w.written|];
      out
  }
}
