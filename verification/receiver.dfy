/**
 * The receiving end of the audio stream (chromecast-receiver/script.js,
 * class SoundReceiver): the SUBSCRIBE handshake and the wire decoder that
 * turns a binary message of interleaved little-endian int16 left/right pairs
 * into stereo frames.
 */
module SoundReceiver {
  import opened Wrappers
  import opened Json
  import opened Bytes

  type int16 = x: int | -32768 <= x < 32768

  /**
   * One stereo frame. Each channel value is an int16 divided by 32768; this is
   * exact in Float32 (a 16-bit integer over a power of two), so `real` is faithful.
   */
  datatype Frame = Frame(left: real, right: real)

  /** DataView.getInt16(i, true): two bytes, little-endian, two's complement. */
  function Int16LE(lo: byte, hi: byte): int16 {
    var u := lo + 256 * hi;
    if u >= 32768 then u - 65536 else u
  }

  function Normalize(x: int16): (r: real)
    ensures -1.0 <= r < 1.0
  {
    x as real / 32768.0
  }

  /** The frame encoded by the four bytes starting at `i`. */
  function FrameAt(data: seq<byte>, i: nat): Frame
    requires i + 4 <= |data|
  {
    Frame(Normalize(Int16LE(data[i], data[i + 1])), Normalize(Int16LE(data[i + 2], data[i + 3])))
  }

  /**
   * A trailing group of fewer than four bytes makes one of the two
   * `getInt16` calls read past the end of the buffer, which throws before
   * the samples are handed on.
   */
  datatype DecodeError = RangeError

  function DecodeFrom(data: seq<byte>, i: nat): Result<seq<Frame>, DecodeError>
    requires i <= |data|
    decreases |data| - i
  {
    if i == |data| then Success([])
    else if |data| - i < 4 then Failure(RangeError)
    else
      match DecodeFrom(data, i + 4)
      case Success(rest) => Success([FrameAt(data, i)] + rest)
      case Failure(e) => Failure(e)
  }

  lemma {:induction false} DecodeFromSpec(data: seq<byte>, i: nat)
    requires i <= |data|
    ensures DecodeFrom(data, i).Success? <==> (|data| - i) % 4 == 0
    ensures DecodeFrom(data, i).Success? ==>
              |DecodeFrom(data, i).value| == (|data| - i) / 4
              && forall j :: 0 <= j < (|data| - i) / 4 ==>
                   DecodeFrom(data, i).value[j] == FrameAt(data, i + 4 * j)
    decreases |data| - i
  {
    if i < |data| && |data| - i >= 4 {
      DecodeFromSpec(data, i + 4);
      if DecodeFrom(data, i + 4).Success? {
        var rest := DecodeFrom(data, i + 4).value;
        forall j | 0 <= j < (|data| - i) / 4
          ensures DecodeFrom(data, i).value[j] == FrameAt(data, i + 4 * j)
        {
          if j > 0 {
            assert DecodeFrom(data, i).value[j] == rest[j - 1];
            assert i + 4 + 4 * (j - 1) == i + 4 * j;
          }
        }
      }
    }
  }

  /**
   * `_onMessage` on a binary message: frame `j` is built from bytes `4j..4j+3`;
   * a length that is not a multiple of four is an error and yields no frames.
   */
  function Decode(data: seq<byte>): (r: Result<seq<Frame>, DecodeError>)
    ensures r.Success? <==> |data| % 4 == 0
    ensures r.Success? ==> |r.value| == |data| / 4
    ensures r.Success? ==> forall j :: 0 <= j < |r.value| ==> r.value[j] == FrameAt(data, 4 * j)
  {
    DecodeFromSpec(data, 0);
    DecodeFrom(data, 0)
  }

  /** The producer side: one int16 written little-endian. */
  function Int16Bytes(x: int16): seq<byte> {
    var u := if x < 0 then x + 65536 else x;
    [u % 256, u / 256]
  }

  /** The sender's wire format: `num` interleaved left/right int16 samples. */
  function Encode(samples: seq<(int16, int16)>): (r: seq<byte>)
    ensures |r| == 4 * |samples|
  {
    if |samples| == 0 then []
    else Int16Bytes(samples[0].0) + Int16Bytes(samples[0].1) + Encode(samples[1..])
  }

  lemma Int16RoundTrip(x: int16)
    ensures Int16LE(Int16Bytes(x)[0], Int16Bytes(x)[1]) == x
  {
  }

  lemma {:induction false} EncodeBytes(samples: seq<(int16, int16)>, j: nat)
    requires j < |samples|
    ensures Encode(samples)[4 * j..4 * j + 2] == Int16Bytes(samples[j].0)
    ensures Encode(samples)[4 * j + 2..4 * j + 4] == Int16Bytes(samples[j].1)
    decreases j
  {
    var e := Encode(samples);
    var head := Int16Bytes(samples[0].0) + Int16Bytes(samples[0].1);
    assert e == head + Encode(samples[1..]);
    if j > 0 {
      EncodeBytes(samples[1..], j - 1);
      assert e[4 * j..4 * j + 2] == Encode(samples[1..])[4 * (j - 1)..4 * (j - 1) + 2];
      assert e[4 * j + 2..4 * j + 4] == Encode(samples[1..])[4 * (j - 1) + 2..4 * (j - 1) + 4];
    }
  }

  /**
   * Round trip of the wire format: decoding what the sender encodes gives,
   * frame by frame, each int16 pair divided by 32768.
   */
  lemma DecodeEncode(samples: seq<(int16, int16)>)
    ensures Decode(Encode(samples)).Success?
    ensures |Decode(Encode(samples)).value| == |samples|
    ensures forall j :: 0 <= j < |samples| ==>
              Decode(Encode(samples)).value[j]
              == Frame(Normalize(samples[j].0), Normalize(samples[j].1))
  {
    var data := Encode(samples);
    forall j | 0 <= j < |samples|
      ensures Decode(data).value[j] == Frame(Normalize(samples[j].0), Normalize(samples[j].1))
    {
      EncodeBytes(samples, j);
      assert data[4 * j] == Int16Bytes(samples[j].0)[0];
      assert data[4 * j + 1] == Int16Bytes(samples[j].0)[1];
      assert data[4 * j + 2] == Int16Bytes(samples[j].1)[0];
      assert data[4 * j + 3] == Int16Bytes(samples[j].1)[1];
      Int16RoundTrip(samples[j].0);
      Int16RoundTrip(samples[j].1);
    }
  }

  /** A receiver: the device name and whether a close callback was given. */
  datatype Receiver = Receiver(name: string, hasClosedCallback: bool)

  /** What the WebSocket delivers: a binary ArrayBuffer or anything else (text). */
  datatype Payload = Binary(bytes: seq<byte>) | Text(text: string)

  datatype Event = Opened | MessageArrived(data: Payload) | Closed

  datatype Warning = NotArrayBuffer | UnexpectedClose

  datatype Effect =
    | Send(message: Json)
    | SoundCallback(frames: seq<Frame>)
    | ClosedCallback
    | Warn(w: Warning)

  /** The SUBSCRIBE handshake `{type: 'SUBSCRIBE', name}`. */
  function SubscribeMessage(name: string): Json {
    JObj(map["type" := JStr("SUBSCRIBE"), "name" := JStr(name)])
  }

  function Sends(effects: seq<Effect>): seq<Json>
    decreases |effects|
  {
    if |effects| == 0 then []
    else (if effects[0].Send? then [effects[0].message] else []) + Sends(effects[1..])
  }

  /**
   * One WebSocket event (`_onOpen`, `_onMessage`, `_onClose`). A non-binary
   * message is warned about and then throws in `new DataView`, so it yields no
   * samples; a binary message of bad length throws in the decoding loop.
   */
  function OnEvent(rx: Receiver, ev: Event): (effects: seq<Effect>)
    ensures |Sends(effects)| == (if ev.Opened? then 1 else 0)
    ensures ev.Opened? ==> Sends(effects) == [SubscribeMessage(rx.name)]
    ensures ev.Opened? ==> StringField(Sends(effects)[0], "type") == Some("SUBSCRIBE")
                           && StringField(Sends(effects)[0], "name") == Some(rx.name)
    ensures (exists k :: 0 <= k < |effects| && effects[k].SoundCallback?) <==>
              ev.MessageArrived? && ev.data.Binary? && |ev.data.bytes| % 4 == 0
    ensures forall k :: 0 <= k < |effects| && effects[k].SoundCallback? ==>
              Decode(ev.data.bytes) == Success(effects[k].frames)
    ensures ev.Closed? ==> (ClosedCallback in effects <==> rx.hasClosedCallback)
  {
    match ev
    case Opened => [Send(SubscribeMessage(rx.name))]
    case MessageArrived(Text(_)) => [Warn(NotArrayBuffer)]
    case MessageArrived(Binary(bytes)) =>
      (match Decode(bytes)
       case Success(frames) => [SoundCallback(frames)]
       case Failure(_) => [])
    case Closed => if rx.hasClosedCallback then [ClosedCallback] else [Warn(UnexpectedClose)]
  }
}
