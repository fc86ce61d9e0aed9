/**
 * The jitter buffer of chromecast-receiver/script.js (class SoundPlayer):
 * decoded frames are packed into fixed-size fragments, playback starts once
 * two seconds are buffered, and each audio cue takes one fragment.
 */
module SoundPlayer {
  import opened Wrappers
  import opened SoundReceiver

  const SOUND_FRAGMENT_SIZE: nat := 1024
  const SAMPLE_RATE: nat := 44100
  const BUFFERING_TIME: real := 2.0

  /** A fragment is SOUND_FRAGMENT_SIZE frames (the two Float32Arrays, zipped). */
  type Fragment = seq<Frame>

  const ZERO: Frame := Frame(0.0, 0.0)

  /** A freshly allocated Float32Array pair: all zeros. Also the `nullSample`. */
  function Silence(): (f: Fragment)
    ensures |f| == SOUND_FRAGMENT_SIZE
    ensures forall k :: 0 <= k < |f| ==> f[k] == ZERO
  {
    seq(SOUND_FRAGMENT_SIZE, _ => ZERO)
  }

  /**
   * `samplesBuffer` (queue of full fragments), `partialSamples` (null or the
   * fragment being filled), `partialSamplesOffset` and the `playing` latch.
   */
  datatype Player = Player(samplesBuffer: seq<Fragment>, partial: Option<Fragment>,
                           offset: nat, playing: bool)

  /**
   * The buffer's invariant: queued fragments are full-sized, the offset is
   * below the fragment size, the partial fragment exists exactly when the
   * offset is positive, and it is still zero beyond the offset.
   */
  ghost predicate Valid(p: Player) {
    && (forall i :: 0 <= i < |p.samplesBuffer| ==> |p.samplesBuffer[i]| == SOUND_FRAGMENT_SIZE)
    && p.offset < SOUND_FRAGMENT_SIZE
    && (p.partial.None? <==> p.offset == 0)
    && (p.partial.Some? ==>
          |p.partial.value| == SOUND_FRAGMENT_SIZE
          && forall k :: p.offset <= k < SOUND_FRAGMENT_SIZE ==> p.partial.value[k] == ZERO)
  }

  /** The constructor's state. */
  function Initial(): (p: Player)
    ensures Valid(p) && !p.playing
    ensures Content(p) == []
  {
    Player([], None, 0, false)
  }

  function Flatten(fs: seq<Fragment>): seq<Frame>
    decreases |fs|
  {
    if |fs| == 0 then [] else fs[0] + Flatten(fs[1..])
  }

  lemma {:induction false} FlattenAppend(fs: seq<Fragment>, f: Fragment)
    ensures Flatten(fs + [f]) == Flatten(fs) + f
    decreases |fs|
  {
    if |fs| == 0 {
      assert fs + [f] == [f];
    } else {
      assert (fs + [f])[1..] == fs[1..] + [f];
      FlattenAppend(fs[1..], f);
    }
  }

  lemma {:induction false} FlattenLength(fs: seq<Fragment>)
    requires forall i :: 0 <= i < |fs| ==> |fs[i]| == SOUND_FRAGMENT_SIZE
    ensures |Flatten(fs)| == SOUND_FRAGMENT_SIZE * |fs|
    decreases |fs|
  {
    if |fs| > 0 {
      FlattenLength(fs[1..]);
    }
  }

  /** The frames held, oldest first: queued fragments, then the partial prefix. */
  function Content(p: Player): seq<Frame> {
    Flatten(p.samplesBuffer) + (if p.partial.Some? && p.offset <= |p.partial.value|
                                then p.partial.value[..p.offset] else [])
  }

  /** The number of buffered frames, from the two authoritative counters. */
  function BufferedFrames(p: Player): nat {
    SOUND_FRAGMENT_SIZE * |p.samplesBuffer| + p.offset
  }

  /** `_getTimeInBuffer`: the buffered duration in seconds. */
  function TimeInBuffer(p: Player): (t: real)
    requires Valid(p)
    ensures t == |Content(p)| as real / SAMPLE_RATE as real
  {
    FlattenLength(p.samplesBuffer);
    BufferedFrames(p) as real / SAMPLE_RATE as real
  }

  /** The start threshold of two seconds is 88200 buffered frames. */
  lemma ThresholdIsFrameCount(p: Player)
    requires Valid(p)
    ensures TimeInBuffer(p) >= BUFFERING_TIME <==> BufferedFrames(p) >= 88200
  {
    var n := BufferedFrames(p);
    if n >= 88200 {
      assert n as real / 44100.0 >= 88200.0 / 44100.0;
    } else {
      assert n as real / 44100.0 < 88200.0 / 44100.0;
    }
  }

  /** One iteration of the loop in `pushSamples`. */
  function PushFrame(p: Player, f: Frame): (q: Player)
    requires Valid(p)
    ensures Valid(q)
    ensures Content(q) == Content(p) + [f]
    ensures BufferedFrames(q) == BufferedFrames(p) + 1
    ensures |p.samplesBuffer| <= |q.samplesBuffer|
    ensures q.samplesBuffer[..|p.samplesBuffer|] == p.samplesBuffer
    ensures q.playing == p.playing
  {
    var part := if p.partial.None? then Silence() else p.partial.value;
    var filled := part[p.offset := f];
    assert filled[..p.offset + 1] == part[..p.offset] + [f];
    if p.offset + 1 == SOUND_FRAGMENT_SIZE then
      FlattenAppend(p.samplesBuffer, filled);
      assert filled == filled[..p.offset + 1];
      assert (p.samplesBuffer + [filled])[..|p.samplesBuffer|] == p.samplesBuffer;
      Player(p.samplesBuffer + [filled], None, 0, p.playing)
    else
      Player(p.samplesBuffer, Some(filled), p.offset + 1, p.playing)
  }

  /** The whole loop of `pushSamples`, frame by frame in order. */
  function PushFrames(p: Player, frames: seq<Frame>): (q: Player)
    requires Valid(p)
    ensures Valid(q)
    ensures Content(q) == Content(p) + frames
    ensures BufferedFrames(q) == BufferedFrames(p) + |frames|
    ensures |p.samplesBuffer| <= |q.samplesBuffer|
    ensures q.samplesBuffer[..|p.samplesBuffer|] == p.samplesBuffer
    ensures q.playing == p.playing
    decreases |frames|
  {
    if |frames| == 0 then p
    else
      var p1 := PushFrame(p, frames[0]);
      var q := PushFrames(p1, frames[1..]);
      assert frames == [frames[0]] + frames[1..];
      assert q.samplesBuffer[..|p.samplesBuffer|] == p1.samplesBuffer[..|p.samplesBuffer|];
      q
  }

  /**
   * `pushSamples`: every frame is kept, in order, after what was buffered;
   * full fragments are only appended to the queue; the `playing` latch is set
   * when at least BUFFERING_TIME is buffered and is never cleared here.
   */
  function PushSamples(p: Player, frames: seq<Frame>): (q: Player)
    requires Valid(p)
    ensures Valid(q)
    ensures Content(q) == Content(p) + frames
    ensures BufferedFrames(q) == BufferedFrames(p) + |frames|
    ensures |p.samplesBuffer| <= |q.samplesBuffer|
    ensures q.samplesBuffer[..|p.samplesBuffer|] == p.samplesBuffer
    ensures q.playing <==> p.playing || BufferedFrames(q) >= 88200
  {
    var q := PushFrames(p, frames);
    ThresholdIsFrameCount(q);
    if !q.playing && TimeInBuffer(q) >= BUFFERING_TIME then q.(playing := true) else q
  }

  /** How many frames of a popped fragment are meaningful audio. */
  function Delivered(p: Player): nat {
    if !p.playing then 0
    else if |p.samplesBuffer| > 0 then SOUND_FRAGMENT_SIZE
    else p.offset
  }

  /**
   * `_popSamples`, once per audio cue. While not playing it returns silence and
   * changes nothing. Otherwise it returns the oldest queued fragment; on an
   * empty queue (underrun) it clears `playing` and returns the partial fragment
   * (zero beyond its offset) or silence. In every case the meaningful prefix of
   * the returned fragment followed by what stays buffered is what was buffered.
   */
  function PopSamples(p: Player): (r: (Player, Fragment))
    requires Valid(p)
    ensures Valid(r.0)
    ensures |r.1| == SOUND_FRAGMENT_SIZE
    ensures !p.playing ==> r == (p, Silence())
    ensures p.playing && |p.samplesBuffer| > 0 ==>
              r.1 == p.samplesBuffer[0] && r.0.playing
              && r.0.samplesBuffer == p.samplesBuffer[1..]
              && r.0.partial == p.partial && r.0.offset == p.offset
    ensures p.playing && |p.samplesBuffer| == 0 ==>
              !r.0.playing && Content(r.0) == [] && r.0.partial.None?
              && forall k :: p.offset <= k < SOUND_FRAGMENT_SIZE ==> r.1[k] == ZERO
    ensures Delivered(p) <= SOUND_FRAGMENT_SIZE
    ensures r.1[..Delivered(p)] + Content(r.0) == Content(p)
  {
    if !p.playing then
      assert Silence()[..0] == [];
      (p, Silence())
    else if |p.samplesBuffer| > 0 then
      var q := p.(samplesBuffer := p.samplesBuffer[1..]);
      var f := p.samplesBuffer[0];
      assert f[..SOUND_FRAGMENT_SIZE] == f;
      (q, f)
    else
      var q := Player([], None, 0, false);
      if p.partial.Some? then
        (q, p.partial.value)
      else
        assert Silence()[..0] == [];
        (q, Silence())
  }

  /** The operations the two contexts apply to the buffer. */
  datatype Op = Push(frames: seq<Frame>) | Pop

  function PushedBy(ops: seq<Op>): seq<Frame>
    decreases |ops|
  {
    if |ops| == 0 then []
    else (if ops[0].Push? then ops[0].frames else []) + PushedBy(ops[1..])
  }

  /** One operation: the new state and the meaningful audio it released. */
  function Step(p: Player, op: Op): (r: (Player, seq<Frame>))
    requires Valid(p)
    ensures Valid(r.0)
    ensures r.1 + Content(r.0) == Content(p) + PushedBy([op])
  {
    assert PushedBy([op]) == (if op.Push? then op.frames else []) + PushedBy([]);
    match op
    case Push(frames) => (PushSamples(p, frames), [])
    case Pop =>
      var r := PopSamples(p);
      (r.0, r.1[..Delivered(p)])
  }

  lemma PushedBySplit(ops: seq<Op>)
    requires |ops| > 0
    ensures PushedBy(ops) == PushedBy([ops[0]]) + PushedBy(ops[1..])
  {
    assert [ops[0]][1..] == [];
  }

  lemma ConcatChain<T>(out1: seq<T>, out2: seq<T>, c0: seq<T>, c1: seq<T>, c2: seq<T>,
                      in1: seq<T>, in2: seq<T>)
    requires out1 + c1 == c0 + in1
    requires out2 + c2 == c1 + in2
    ensures (out1 + out2) + c2 == c0 + (in1 + in2)
  {
    calc {
      (out1 + out2) + c2;
      out1 + (out2 + c2);
      out1 + (c1 + in2);
      (out1 + c1) + in2;
      (c0 + in1) + in2;
    }
  }

  /**
   * FIFO order and conservation over any interleaving of pushes and pops:
   * the audio released, followed by what is still buffered, is exactly what
   * was buffered followed by everything pushed, in push order. No frame is
   * dropped, duplicated or reordered.
   */
  function Run(p: Player, ops: seq<Op>): (r: (Player, seq<Frame>))
    requires Valid(p)
    ensures Valid(r.0)
    ensures r.1 + Content(r.0) == Content(p) + PushedBy(ops)
    decreases |ops|
  {
    if |ops| == 0 then (p, [])
    else
      var first := Step(p, ops[0]);
      var rest := Run(first.0, ops[1..]);
      PushedBySplit(ops);
      ConcatChain(first.1, rest.1, Content(p), Content(first.0), Content(rest.0),
                  PushedBy([ops[0]]), PushedBy(ops[1..]));
      (rest.0, first.1 + rest.1)
  }
}
