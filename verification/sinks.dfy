/**
 * The audio sinks of src/audio_sinks_manager.cpp: the life of one
 * InternalAudioSink (NONE, STARTED, LOADED, RECORDING, DEAD) as PulseAudio
 * operations start, complete or fail, and the manager's registration set
 * with its `stopping` flag. Every PulseAudio call is replaced by its outcome,
 * passed in as a parameter; the calls that are started become effects.
 */
module AudioSinksManager {
  import opened Wrappers
  import Util

  /** A sink object (the shared pointer's identity). */
  type SinkId = nat

  datatype State = NONE | STARTED | LOADED | RECORDING | DEAD

  datatype Sink = Sink(name: string, identifier: string, state: State, moduleIdx: nat)

  /**
   * Every sink object still alive, the registered ones (`audio_sinks`),
   * `stopping`, and whether there is a PulseAudio context and it is READY.
   */
  datatype Manager = Manager(sinks: map<SinkId, Sink>, registered: set<SinkId>, stopping: bool,
                             hasContext: bool, contextReady: bool)

  /** Registered sinks are known sink objects, and only an existing context can be READY. */
  ghost predicate Valid(m: Manager) {
    && m.registered <= m.sinks.Keys
    && (m.contextReady ==> m.hasContext)
  }

  /** The 20 ms record fragment: 44100 frames/s of 4-byte s16 stereo, over 1000/20. */
  const SAMPLE_RATE: nat := 44100
  const SAMPLE_BYTES: nat := 4
  const FRAGSIZE: nat := (SAMPLE_RATE * SAMPLE_BYTES) / (1000 / 20)

  lemma FragsizeIsTwentyMilliseconds()
    ensures FRAGSIZE == 3528
    ensures FRAGSIZE / SAMPLE_BYTES * 50 == SAMPLE_RATE
  {
  }

  /** The PulseAudio operations that are started. */
  datatype Effect =
    | LoadModule(sink: SinkId, arguments: string)
    | UnloadModule(sink: SinkId, index: nat)
    | ConnectRecord(sink: SinkId, device: string, fragsize: nat)
    | DisconnectStream(sink: SinkId)
    | DisconnectContext
    | Samples(sink: SinkId, count: nat, nullBuffer: bool)

  function SetState(m: Manager, id: SinkId, s: State): (r: Manager)
    requires id in m.sinks
    ensures Valid(m) ==> Valid(r)
  {
    m.(sinks := m.sinks[id := m.sinks[id].(state := s)])
  }

  /**
   * The sink `id` may have changed; every other sink, the registration of
   * every other sink, and the manager's flags are as they were.
   */
  ghost predicate OnlyTouches(m: Manager, r: Manager, id: SinkId) {
    && r.sinks.Keys == m.sinks.Keys
    && (forall j :: j in m.sinks && j != id ==> r.sinks[j] == m.sinks[j])
    && r.registered - {id} == m.registered - {id}
    && r.stopping == m.stopping && r.hasContext == m.hasContext && r.contextReady == m.contextReady
  }

  /**
   * `unregister_audio_sink`: the sink leaves the set; the context is
   * disconnected exactly when the set is then empty while stopping.
   */
  function Unregister(m: Manager, id: SinkId): (r: (Manager, seq<Effect>))
    ensures r.0 == m.(registered := m.registered - {id})
    ensures r.1 == [DisconnectContext] <==> r.0.registered == {} && m.stopping && m.hasContext
    ensures r.1 != [DisconnectContext] ==> r.1 == []
  {
    var m2 := m.(registered := m.registered - {id});
    if m2.registered == {} && m.stopping && m.hasContext then (m2, [DisconnectContext]) else (m2, [])
  }

  /**
   * `stop_sink`: start unloading the module; if that cannot start, the sink
   * is DEAD and unregistered at once.
   */
  function StopSink(m: Manager, id: SinkId, unloadStarted: bool): (r: (Manager, seq<Effect>))
    requires Valid(m) && id in m.sinks
    ensures Valid(r.0) && OnlyTouches(m, r.0, id)
    ensures unloadStarted ==> r == (m, [UnloadModule(id, m.sinks[id].moduleIdx)])
    ensures !unloadStarted ==> r.0.sinks[id].state == DEAD && id !in r.0.registered
  {
    if unloadStarted then (m, [UnloadModule(id, m.sinks[id].moduleIdx)])
    else Unregister(SetState(m, id, DEAD), id)
  }

  /** Unload the module of a sink being freed, which ends DEAD whether or not the unload starts. */
  function StopDead(m: Manager, id: SinkId, unloadStarted: bool): (r: (Manager, seq<Effect>))
    requires Valid(m) && id in m.sinks
    ensures Valid(r.0) && OnlyTouches(m, r.0, id)
    ensures r.0.sinks[id].state == DEAD
    ensures r.1 == StopSink(m, id, unloadStarted).1
    ensures unloadStarted ==> r.0.registered == m.registered
    ensures !unloadStarted ==> id !in r.0.registered
  {
    var s := StopSink(m, id, unloadStarted);
    (SetState(s.0, id, DEAD), s.1)
  }

  /** The outcomes of the PulseAudio calls one `free` may make. */
  datatype FreeOutcome = FreeOutcome(disconnectOk: bool, unloadStarted: bool)

  /**
   * `free`: a DEAD sink is left alone; any other ends DEAD. A NONE sink is
   * unregistered at once; a STARTED one is left to its load callback; a
   * LOADED one unloads its module; a RECORDING one disconnects its stream
   * (the stream's termination then unloads), or unloads at once if that fails.
   */
  function Free(m: Manager, id: SinkId, pa: FreeOutcome): (r: (Manager, seq<Effect>))
    requires Valid(m) && id in m.sinks
    ensures Valid(r.0) && OnlyTouches(m, r.0, id)
    ensures r.0.sinks[id].state == DEAD
    ensures m.sinks[id].state == DEAD ==> r == (m, [])
    ensures m.sinks[id].state == NONE ==> r == Unregister(SetState(m, id, DEAD), id)
    ensures m.sinks[id].state == STARTED ==> r == (SetState(m, id, DEAD), [])
    ensures m.sinks[id].state == RECORDING && pa.disconnectOk ==>
              r == (SetState(m, id, DEAD), [DisconnectStream(id)])
    ensures m.sinks[id].state in {LOADED, RECORDING} && !(m.sinks[id].state == RECORDING && pa.disconnectOk) ==>
              r == StopDead(m, id, pa.unloadStarted)
  {
    match m.sinks[id].state
    case NONE => Unregister(SetState(m, id, DEAD), id)
    case STARTED => (SetState(m, id, DEAD), [])
    case LOADED => StopDead(m, id, pa.unloadStarted)
    case RECORDING =>
      if pa.disconnectOk then (SetState(m, id, DEAD), [DisconnectStream(id)])
      else StopDead(m, id, pa.unloadStarted)
    case DEAD => (m, [])
  }

  /** Freeing twice is freeing once. */
  lemma FreeIdempotent(m: Manager, id: SinkId, pa1: FreeOutcome, pa2: FreeOutcome)
    requires Valid(m) && id in m.sinks
    ensures Free(Free(m, id, pa1).0, id, pa2) == (Free(m, id, pa1).0, [])
  {
  }

  /** The `module-null-sink` arguments: the identifier as sink name, the escaped name as description. */
  function ModuleArguments(s: Sink): string {
    "sink_name=" + s.identifier + " sink_properties=device.description=\"" + Util.EscapeName(s.name) + "\""
  }

  /** The description in the module arguments reads back as the sink's name. */
  lemma ArgumentsCarryName(s: Sink)
    ensures var prefix := "sink_name=" + s.identifier + " sink_properties=device.description=\"";
            var args := ModuleArguments(s);
            && |prefix| + 1 <= |args|
            && args[..|prefix|] == prefix && args[|args| - 1] == '"'
            && Util.Unescape(args[|prefix|..|args| - 1]) == s.name
  {
    var prefix := "sink_name=" + s.identifier + " sink_properties=device.description=\"";
    var args := ModuleArguments(s);
    assert args == prefix + Util.EscapeName(s.name) + "\"";
    assert args[|prefix|..|args| - 1] == Util.EscapeName(s.name);
    Util.EscapeNameRoundTrip(s.name);
  }

  /**
   * `start_sink`, only from NONE: the sink is STARTED and the module load is
   * issued; if it cannot be issued the sink is DEAD and unregistered.
   */
  function StartSink(m: Manager, id: SinkId, loadStarted: bool): (r: (Manager, seq<Effect>))
    requires Valid(m) && id in m.sinks && m.sinks[id].state == NONE
    ensures Valid(r.0) && OnlyTouches(m, r.0, id)
    ensures loadStarted ==>
              r == (SetState(m, id, STARTED), [LoadModule(id, ModuleArguments(m.sinks[id]))])
    ensures !loadStarted ==>
              r.0.sinks[id].state == DEAD && id !in r.0.registered
              && r == Unregister(SetState(m, id, DEAD), id)
  {
    if loadStarted then (SetState(m, id, STARTED), [LoadModule(id, ModuleArguments(m.sinks[id]))])
    else Unregister(SetState(m, id, DEAD), id)
  }

  /** What the load callback and the calls it makes report. */
  datatype LoadOutcome = LoadOutcome(index: Option<nat>, streamCreated: bool, recordConnected: bool,
                                     unloadStarted: bool)

  /**
   * `module_load_callback`, which only follows a started load (the sink is
   * STARTED, or DEAD if freed meanwhile). A failed load: DEAD, unregistered.
   * Freed meanwhile: the fresh module is unloaded again. Otherwise LOADED, and
   * RECORDING once the record stream on the sink's monitor is connected; a
   * stream that cannot be created or connected frees the sink.
   */
  function ModuleLoaded(m: Manager, id: SinkId, pa: LoadOutcome): (r: (Manager, seq<Effect>))
    requires Valid(m) && id in m.sinks && m.sinks[id].state in {STARTED, DEAD}
    ensures Valid(r.0) && OnlyTouches(m, r.0, id)
    ensures pa.index.None? ==> r.0.sinks[id].state == DEAD && id !in r.0.registered
    ensures pa.index.Some? ==> r.0.sinks[id].moduleIdx == pa.index.value
    ensures pa.index.Some? && m.sinks[id].state == DEAD ==>
              r.0.sinks[id].state == DEAD
              && (pa.unloadStarted ==> r.1 == [UnloadModule(id, pa.index.value)])
    ensures pa.index.Some? && m.sinks[id].state == STARTED ==>
              (r.0.sinks[id].state == RECORDING <==> pa.streamCreated && pa.recordConnected)
              && (r.0.sinks[id].state != RECORDING ==> r.0.sinks[id].state == DEAD)
    ensures r.0.sinks[id].state == RECORDING ==>
              r.1 == [ConnectRecord(id, m.sinks[id].identifier + ".monitor", FRAGSIZE)]
  {
    match pa.index
    case None => Unregister(SetState(m, id, DEAD), id)
    case Some(idx) => LoadedAt(m, id, idx, pa)
  }

  /** The load callback with a module index: see `ModuleLoaded`. */
  function LoadedAt(m: Manager, id: SinkId, idx: nat, pa: LoadOutcome): (r: (Manager, seq<Effect>))
    requires Valid(m) && id in m.sinks && m.sinks[id].state in {STARTED, DEAD}
    ensures Valid(r.0) && OnlyTouches(m, r.0, id)
    ensures r.0.sinks[id].moduleIdx == idx
    ensures m.sinks[id].state == DEAD ==>
              r.0.sinks[id].state == DEAD && (pa.unloadStarted ==> r.1 == [UnloadModule(id, idx)])
    ensures m.sinks[id].state == STARTED ==>
              (r.0.sinks[id].state == RECORDING <==> pa.streamCreated && pa.recordConnected)
              && (r.0.sinks[id].state != RECORDING ==> r.0.sinks[id].state == DEAD)
    ensures r.0.sinks[id].state == RECORDING ==>
              r.1 == [ConnectRecord(id, m.sinks[id].identifier + ".monitor", FRAGSIZE)]
  {
    var m1 := SetIndex(m, id, idx);
    if m.sinks[id].state == DEAD then
      var r := StopSink(m1, id, pa.unloadStarted);
      OnlyTouchesTransitive(m, m1, r.0, id);
      r
    else
      var r := Record(SetState(m1, id, LOADED), id, pa);
      OnlyTouchesTransitive(m, SetState(m1, id, LOADED), r.0, id);
      r
  }

  /** Record the index of the sink's loaded module. */
  function SetIndex(m: Manager, id: SinkId, idx: nat): (r: Manager)
    requires Valid(m) && id in m.sinks
    ensures Valid(r) && OnlyTouches(m, r, id) && r.registered == m.registered
    ensures r.sinks[id] == m.sinks[id].(moduleIdx := idx)
  {
    m.(sinks := m.sinks[id := m.sinks[id].(moduleIdx := idx)])
  }

  lemma OnlyTouchesTransitive(a: Manager, b: Manager, c: Manager, id: SinkId)
    requires OnlyTouches(a, b, id) && OnlyTouches(b, c, id)
    ensures OnlyTouches(a, c, id)
  {
  }

  /**
   * The load succeeded: create the record stream and connect it to the
   * sink's monitor source; if either fails, free the LOADED sink.
   */
  function Record(m: Manager, id: SinkId, pa: LoadOutcome): (r: (Manager, seq<Effect>))
    requires Valid(m) && id in m.sinks && m.sinks[id].state == LOADED
    ensures Valid(r.0) && OnlyTouches(m, r.0, id)
    ensures r.0.sinks[id].moduleIdx == m.sinks[id].moduleIdx
    ensures r.0.sinks[id].state == RECORDING <==> pa.streamCreated && pa.recordConnected
    ensures r.0.sinks[id].state != RECORDING ==> r.0.sinks[id].state == DEAD
    ensures r.0.sinks[id].state == RECORDING ==>
              r.1 == [ConnectRecord(id, m.sinks[id].identifier + ".monitor", FRAGSIZE)]
  {
    if !pa.streamCreated || !pa.recordConnected then
      Free(m, id, FreeOutcome(false, pa.unloadStarted))
    else
      (SetState(m, id, RECORDING), [ConnectRecord(id, m.sinks[id].identifier + ".monitor", FRAGSIZE)])
  }

  /** `module_unload_callback`: successful or not, the sink is unregistered. */
  function ModuleUnloaded(m: Manager, id: SinkId): (r: (Manager, seq<Effect>))
    ensures r == Unregister(m, id)
    ensures id !in r.0.registered
  {
    Unregister(m, id)
  }

  datatype StreamState = StreamFailed | StreamTerminated | StreamOther

  /**
   * `stream_state_change_callback`: FAILED marks the sink DEAD and then, like
   * TERMINATED, unloads its module; other states change nothing.
   */
  function StreamStateChanged(m: Manager, id: SinkId, st: StreamState, unloadStarted: bool)
    : (r: (Manager, seq<Effect>))
    requires Valid(m) && id in m.sinks
    ensures Valid(r.0) && OnlyTouches(m, r.0, id)
    ensures st == StreamOther ==> r == (m, [])
    ensures st == StreamFailed ==> r.0.sinks[id].state == DEAD
    ensures st == StreamTerminated && unloadStarted ==> r == (m, [UnloadModule(id, m.sinks[id].moduleIdx)])
    ensures st != StreamOther && unloadStarted ==> r.1 == [UnloadModule(id, m.sinks[id].moduleIdx)]
    ensures st != StreamOther && !unloadStarted ==> r.0.sinks[id].state == DEAD && id !in r.0.registered
  {
    match st
    case StreamFailed => StopSink(SetState(m, id, DEAD), id, unloadStarted)
    case StreamTerminated => StopSink(m, id, unloadStarted)
    case StreamOther => (m, [])
  }

  /**
   * What `pa_stream_peek` reports: a failure, or `data_size` bytes, where a
   * hole in the record stream comes as a null `data` pointer.
   */
  datatype Peek = PeekFailed | Peeked(size: nat, hole: bool)

  /**
   * `stream_read_callback`: a failed peek or an empty read returns before the
   * callback; otherwise the callback, if set, is called with `data_size / 4`
   * (a trailing partial sample is only warned about) and the peeked pointer,
   * which is null for a hole (the hole is only logged).
   */
  function StreamRead(id: SinkId, peek: Peek, hasCallback: bool): (effects: seq<Effect>)
    ensures |effects| <= 1
    ensures |effects| == 1 <==> peek.Peeked? && peek.size > 0 && hasCallback
    ensures |effects| == 1 ==> effects[0].Samples? && effects[0].sink == id
                               && effects[0].count * SAMPLE_BYTES <= peek.size
                               && peek.size < (effects[0].count + 1) * SAMPLE_BYTES
    ensures |effects| == 1 ==> (effects[0].nullBuffer <==> peek.hole)
  {
    match peek
    case PeekFailed => []
    case Peeked(size, hole) =>
      if size == 0 || !hasCallback then [] else [Samples(id, size / SAMPLE_BYTES, hole)]
  }

  /**
   * `create_new_sink` (the part run on the PulseAudio strand): while stopping
   * the new sink is freed at once; otherwise it is registered and, if the
   * context is READY, started, which unregisters it again, DEAD, when the
   * module load cannot be issued.
   */
  function CreateNewSink(m: Manager, id: SinkId, name: string, identifier: string, loadStarted: bool)
    : (r: (Manager, seq<Effect>))
    requires Valid(m) && id !in m.sinks
    ensures Valid(r.0)
    ensures r.0.sinks.Keys == m.sinks.Keys + {id}
    ensures forall j :: j in m.sinks ==> r.0.sinks[j] == m.sinks[j]
    ensures r.0.sinks[id].name == name && r.0.sinks[id].identifier == identifier
    ensures m.stopping ==> r.0.sinks[id].state == DEAD && r.0.registered == m.registered
    ensures m.stopping ==>
              if m.registered == {} && m.hasContext then r.1 == [DisconnectContext] else r.1 == []
    ensures !m.stopping && !m.contextReady ==>
              r.0.sinks[id].state == NONE && r.0.registered == m.registered + {id} && r.1 == []
    ensures !m.stopping && m.contextReady && loadStarted ==>
              r.0.sinks[id].state == STARTED && r.0.registered == m.registered + {id}
              && r.1 == [LoadModule(id, ModuleArguments(r.0.sinks[id]))]
    ensures !m.stopping && m.contextReady && !loadStarted ==>
              r.0.sinks[id].state == DEAD && r.0.registered == m.registered && r.1 == []
    ensures r.0.stopping == m.stopping && r.0.hasContext == m.hasContext
            && r.0.contextReady == m.contextReady
  {
    var m1 := m.(sinks := m.sinks[id := Sink(name, identifier, NONE, 0)]);
    if m.stopping then Free(m1, id, FreeOutcome(false, false))
    else
      var m2 := m1.(registered := m1.registered + {id});
      if m.contextReady then StartSink(m2, id, loadStarted) else (m2, [])
  }

  // ---------------------------------------------------------------------------
  // Stopping the manager

  /** `order` lists the registered sinks, each once: an iteration order of the set. */
  predicate Enumerates(order: seq<SinkId>, s: set<SinkId>) {
    && (forall k :: 0 <= k < |order| ==> order[k] in s)
    && (forall j :: j in s ==> j in order)
    && (forall a, b :: 0 <= a < b < |order| ==> order[a] != order[b])
  }

  /**
   * Free each sink of `order` in turn. Sinks listed end DEAD, the others are
   * untouched; the flags are kept.
   */
  function FreeAll(m: Manager, order: seq<SinkId>, outcomes: seq<FreeOutcome>): (r: (Manager, seq<Effect>))
    requires Valid(m)
    requires forall k :: 0 <= k < |order| ==> order[k] in m.sinks
    requires |outcomes| == |order|
    ensures Valid(r.0)
    ensures r.0.sinks.Keys == m.sinks.Keys
    ensures forall j :: j in m.sinks && j in order ==> r.0.sinks[j].state == DEAD
    ensures forall j :: j in m.sinks && j !in order ==> r.0.sinks[j] == m.sinks[j]
    ensures forall j :: j !in order ==> (j in r.0.registered <==> j in m.registered)
    ensures r.0.stopping == m.stopping && r.0.hasContext == m.hasContext
    decreases |order|
  {
    if |order| == 0 then (m, [])
    else
      var first := Free(m, order[0], outcomes[0]);
      var rest := FreeAll(first.0, order[1..], outcomes[1..]);
      assert forall j :: j in order ==> j == order[0] || j in order[1..];
      (rest.0, first.1 + rest.1)
  }

  /**
   * `stop`, with the set's iteration order and the outcomes of each `free`
   * as parameters. A second stop does nothing. The first sets `stopping`,
   * then disconnects the context at once if no sink is registered, or frees
   * every registered sink; the loop works on a snapshot of the set (see the
   * findings: the code iterates over the set itself while `free` erases from it).
   */
  function Stop(m: Manager, order: seq<SinkId>, outcomes: seq<FreeOutcome>): (r: (Manager, seq<Effect>))
    requires Valid(m)
    requires Enumerates(order, m.registered) && |outcomes| == |order|
    ensures Valid(r.0) && r.0.stopping && r.0.sinks.Keys == m.sinks.Keys
    ensures m.stopping ==> r == (m, [])
    ensures !m.stopping && m.registered == {} ==>
              r.0 == m.(stopping := true) && (r.1 == [DisconnectContext] <==> m.hasContext)
    ensures !m.stopping ==> forall j :: j in m.registered ==> r.0.sinks[j].state == DEAD
    ensures forall j :: j in m.sinks && j !in m.registered ==> r.0.sinks[j] == m.sinks[j]
  {
    if m.stopping then (m, [])
    else
      var m1 := m.(stopping := true);
      if m.registered == {} then (m1, if m.hasContext then [DisconnectContext] else [])
      else FreeAll(m1, order, outcomes)
  }

  lemma StopIdempotent(m: Manager, order: seq<SinkId>, outcomes: seq<FreeOutcome>,
                       order2: seq<SinkId>, outcomes2: seq<FreeOutcome>)
    requires Valid(m)
    requires Enumerates(order, m.registered) && |outcomes| == |order|
    requires Enumerates(order2, Stop(m, order, outcomes).0.registered) && |outcomes2| == |order2|
    ensures Stop(Stop(m, order, outcomes).0, order2, outcomes2) == (Stop(m, order, outcomes).0, [])
  {
  }

  /** After `stop`, a sink created later is freed and never registered. */
  lemma CreatedAfterStopIsFreed(m: Manager, order: seq<SinkId>, outcomes: seq<FreeOutcome>,
                                id: SinkId, name: string, identifier: string, loadStarted: bool)
    requires Valid(m)
    requires Enumerates(order, m.registered) && |outcomes| == |order|
    requires id !in m.sinks
    ensures var stopped := Stop(m, order, outcomes).0;
            var created := CreateNewSink(stopped, id, name, identifier, loadStarted).0;
            created.sinks[id].state == DEAD && id !in created.registered
  {
  }

  /**
   * If every registered sink is still NONE (the context never became READY),
   * stopping unregisters them all, and the context is disconnected when the
   * last one leaves.
   */
  lemma StopBeforeReady(m: Manager, order: seq<SinkId>, outcomes: seq<FreeOutcome>)
    requires Valid(m) && !m.stopping && m.hasContext
    requires Enumerates(order, m.registered) && |outcomes| == |order|
    requires forall j :: j in m.registered ==> m.sinks[j].state == NONE
    ensures Stop(m, order, outcomes).0.registered == {}
    ensures DisconnectContext in Stop(m, order, outcomes).1
  {
    if m.registered != {} {
      FreeAllNone(m.(stopping := true), order, outcomes);
    }
  }

  lemma {:induction false} FreeAllNone(m: Manager, order: seq<SinkId>, outcomes: seq<FreeOutcome>)
    requires Valid(m) && m.stopping && m.hasContext && |order| > 0
    requires Enumerates(order, m.registered) && |outcomes| == |order|
    requires forall j :: j in m.registered ==> m.sinks[j].state == NONE
    ensures FreeAll(m, order, outcomes).0.registered == {}
    ensures DisconnectContext in FreeAll(m, order, outcomes).1
    decreases |order|
  {
    var first := Free(m, order[0], outcomes[0]);
    assert first == Unregister(SetState(m, order[0], DEAD), order[0]);
    assert first.0.registered == m.registered - {order[0]};
    if |order| == 1 {
      assert m.registered == {order[0]};
      assert first.1 == [DisconnectContext];
      assert FreeAll(first.0, order[1..], outcomes[1..]) == (first.0, []);
    } else {
      assert order[1] in first.0.registered;
      forall j | j in first.0.registered ensures j in order[1..] {
        var k :| 0 <= k < |order| && order[k] == j;
        assert k != 0;
      }
      FreeAllNone(first.0, order[1..], outcomes[1..]);
    }
  }

  // ---------------------------------------------------------------------------
  // The loop of `stop` as written

  /** Erasing the element an iteration is positioned on invalidates the iterator. */
  datatype IterationError = IteratorInvalidated(position: nat)

  /**
   * `stop`'s loop as the code writes it: a range-for over `audio_sinks` itself.
   * Freeing the current sink may erase it from that set (a NONE sink, or a
   * LOADED one whose unload cannot start); advancing the iterator afterwards
   * is then undefined.
   */
  function FreeAllInPlace(m: Manager, order: seq<SinkId>, outcomes: seq<FreeOutcome>, k: nat)
    : (r: Result<(Manager, seq<Effect>), IterationError>)
    requires Valid(m)
    requires forall i :: 0 <= i < |order| ==> order[i] in m.sinks
    requires |outcomes| == |order| && k <= |order|
    ensures r.Failure? ==> k <= r.error.position < |order|
    ensures k < |order| && order[k] in m.registered && m.sinks[order[k]].state == NONE ==>
              r == Failure(IteratorInvalidated(k))
    ensures r.Success? ==> r.value == FreeAll(m, order[k..], outcomes[k..])
    decreases |order| - k
  {
    if k == |order| then Success((m, []))
    else
      var step := Free(m, order[k], outcomes[k]);
      if order[k] in m.registered && order[k] !in step.0.registered then Failure(IteratorInvalidated(k))
      else
        match FreeAllInPlace(step.0, order, outcomes, k + 1)
        case Failure(e) => Failure(e)
        case Success(rest) =>
          assert order[k..][1..] == order[k + 1..] && outcomes[k..][1..] == outcomes[k + 1..];
          Success((rest.0, step.1 + rest.1))
  }

  /**
   * The smallest case: the context has not become READY, one Chromecast was
   * found (its sink is registered, still NONE), and the program stops. The
   * first `free` erases the element the loop stands on.
   */
  lemma StopInPlaceInvalidatesIterator()
    ensures var m := Manager(map[0 := Sink("Living Room", "abcdefghij", NONE, 0)], {0}, true, true, false);
            FreeAllInPlace(m, [0], [FreeOutcome(false, false)], 0) == Failure(IteratorInvalidated(0))
  {
  }
}
