# pulseaudio-chromecast-sink, modelled in Dafny

pulseaudio-chromecast-sink turns every Chromecast on the local network into a
PulseAudio sink. It works in four steps:

1. It finds devices over mDNS.
2. It creates a null sink per device and records that sink's monitor.
3. On activation it opens a TLS cast connection to the device.
4. It streams the recorded samples over a WebSocket to a small receiver page
   that plays them.

This project models the sequential core of that pipeline as pure functions
over immutable datatypes and proves what the code promises.

| file | module | what it models |
|---|---|---|
| `receiver.dfy` | `SoundReceiver` | The receiver page's WebSocket handling: the SUBSCRIBE handshake, and the decoder of interleaved little-endian int16 stereo. |
| `player.dfy` | `SoundPlayer` | The receiver's jitter buffer: fixed 1024-frame fragments plus one partial fragment, the two-second `playing` latch, and underruns. |
| `util.dfy` | `Util` | `replace_all` (left-to-right, non-overlapping), the three-step name escaping built on it, and `generate_random_string`. |
| `finder.dfy` | `ChromecastFinder` | The discovery bookkeeping: the TXT-record parser, the resolver registry, the per-device reference-counted endpoints, and the NEW/UPDATE/REMOVE stream. |
| `manager.dfy` | `ChromecastsManager` | The device registry that mirrors the finder's stream, subscriptions, activation, and the connection callbacks. |
| `channel.dfy` | `ChromecastChannel` | Cast channels: message filtering and dispatch by namespace, heartbeat, request ids, and pending-request tables. |
| `connection.dfy` | `ChromecastConnection` | Length-prefixed framing, the 1 MiB bound, the read-buffer growth rule, read-error classification, and the one-write-at-a-time FIFO queue. |
| `sinks.dfy` | `AudioSinksManager` | The audio sink state machine (NONE, STARTED, LOADED, RECORDING, DEAD), registration, and the manager's `stop`. |
| `bytes.dfy`, `endpoint.dfy`, `json.dfy`, `castmessage.dfy`, `wrappers.dfy` | | Shared vocabulary: bytes and big-endian uint32, ordered IPv4 and IPv6 endpoints and their text, JSON values and nlohmann's conversions, cast messages, and `Option`/`Result`. |

Everything asynchronous becomes an input:

- An Avahi, PulseAudio, socket or TLS call is replaced by its outcome (success,
  or the error it reports). The outcome is passed to the step function that
  models the callback.
- Operations the code starts are returned as effects, such as `LoadModule`,
  `StartWrite` or `Send`.
- The random draws of `generate_random_string` are a parameter.

## Model

| member | source | states |
|---|---|---|
| `SoundReceiver.Decode` | chromecast-receiver/script.js:59-65 | A message of `4n` bytes decodes to exactly `n` frames. Frame `j` is the little-endian int16 at byte `4j` over 32768 (left) and the one at `4j+2` (right). Any other length is an error, because `getInt16` throws on the trailing partial group. |
| `SoundReceiver.DecodeFromSpec` | chromecast-receiver/script.js:62-65 | The decoding loop from byte `i` succeeds iff the remaining length is a multiple of 4. It then yields one frame per 4-byte group, in order. |
| `SoundReceiver.Normalize` | chromecast-receiver/script.js:63-64 | A sample over 32768 lies in [-1, 1). |
| `SoundReceiver.Encode` | src/websocket_broadcaster.cpp:130 | The sender's buffer holds 4 bytes per stereo sample. |
| `SoundReceiver.Int16RoundTrip` | chromecast-receiver/script.js:63 | Reading back the two little-endian bytes of an int16 gives the int16. |
| `SoundReceiver.EncodeBytes` | src/websocket_broadcaster.cpp:130 | Sample `j`'s left and right values occupy bytes `4j..4j+2` and `4j+2..4j+4`. |
| `SoundReceiver.DecodeEncode` | chromecast-receiver/script.js:59-65 | The receiver decodes what the sender encodes: one frame per sample, holding the normalised left and right values. |
| `SoundReceiver.OnEvent` | chromecast-receiver/script.js:39-67 | On open exactly one message is sent: a SUBSCRIBE carrying the receiver's name. A message yields samples iff it is binary with a length that is a multiple of 4, and the samples are its decoding. A close calls the close callback iff one was given. |
| `SoundPlayer.Silence` | chromecast-receiver/script.js:91-94 | The null sample is a whole fragment of zeros. |
| `SoundPlayer.Initial` | chromecast-receiver/script.js:83-87 | The constructor's buffer is empty, not playing, and satisfies the fragment invariant. |
| `SoundPlayer.FlattenLength` | chromecast-receiver/script.js:155-156 | `k` full fragments hold `1024*k` frames. |
| `SoundPlayer.TimeInBuffer` | chromecast-receiver/script.js:154-158 | The buffered time is the number of buffered frames (queued fragments and the partial prefix) over 44100. |
| `SoundPlayer.ThresholdIsFrameCount` | chromecast-receiver/script.js:124 | At least 2.0 s buffered means at least 88200 buffered frames, and conversely. |
| `SoundPlayer.PushFrame` | chromecast-receiver/script.js:105-118 | Storing one frame keeps the invariant (offset below 1024; partial absent iff the offset is 0). It appends the frame to the content and keeps the queued fragments as a prefix. |
| `SoundPlayer.PushFrames` | chromecast-receiver/script.js:104-122 | The push loop appends exactly the pushed frames, in order. The count `1024*len(samplesBuffer)+offset` grows by their number, and `playing` is untouched. |
| `SoundPlayer.PushSamples` | chromecast-receiver/script.js:97-127 | `pushSamples` conserves and orders samples as above. Afterwards `playing` holds iff it held before or at least 88200 frames are buffered, so a push never clears it. |
| `SoundPlayer.PopSamples` | chromecast-receiver/script.js:130-152 | When not playing, `_popSamples` returns silence and changes nothing. When playing with queued fragments, it returns the oldest and stays playing. On an underrun it stops playing and returns the partial fragment (zero past its offset) or silence, and empties the buffer. The returned frames followed by what remains are what was buffered. |
| `SoundPlayer.Step` | chromecast-receiver/script.js:160-165 | One push or audio cue keeps the invariant and conserves frames: released frames followed by the new content equal the old content followed by the pushed frames. |
| `SoundPlayer.Run` | chromecast-receiver/script.js:97-152 | FIFO: for any interleaving of pushes and cues, everything released followed by what is still buffered equals the old content followed by all pushed frames. |
| `Util.Search` | src/util.cpp:24-26 | `std::search` from a position returns a match position at or after it, or the end. |
| `Util.SearchIsLeftmost` | src/util.cpp:24-26 | No occurrence lies between the start position and the returned position. If the end is returned, there is no occurrence at all. |
| `Util.ReplacedAtNextMatch` | src/util.cpp:24-30 | The text before the leftmost match is copied, the match becomes `to`, and the scan resumes right after the match. |
| `Util.ReplacedAfterLastMatch` | src/util.cpp:32 | After the last match, the rest of the string is copied verbatim. |
| `Util.ReplaceAll` | src/util.cpp:20-34 | The loop computes the left-to-right, non-overlapping replacement, given a non-empty `what`. |
| `Util.ReplacedWithoutMatch` | src/util.cpp:24-32 | A string without occurrences is returned unchanged. |
| `Util.ReplacedLength` | src/util.cpp:20-34 | The result is as long as `str` plus `k` times the length difference between `to` and `what`, where `k` is the number of matches. |
| `Util.Escape3IsEach` | src/audio_sinks_manager.cpp:270-271 | Escaping backslashes, then spaces, then quotes equals escaping each character on its own. |
| `Util.EscapeNameIsPerCharacter` | src/audio_sinks_manager.cpp:270-271 | The three chained `replace_all` calls escape each character independently. |
| `Util.UnescapeEach` | src/audio_sinks_manager.cpp:270-271 | Per-character escaping is undone by reading `\x` as `x`. |
| `Util.EscapeNameRoundTrip` | src/audio_sinks_manager.cpp:270-274 | The escaped sink description reads back as the device name. |
| `Util.GenerateRandomString` | src/util.cpp:8-18 | The result has exactly `length` characters. Character `i` is the drawn element of the non-empty alphabet. |
| `Endpoints.BeforeIsStrictTotalOrder` | src/chromecasts_manager.cpp:145 | The endpoint order of the `std::set` is a strict total order. It compares the address first and then the port. Every IPv4 address comes before every IPv6 address, and addresses of one family compare numerically. |
| `Endpoints.FirstExists` | src/chromecasts_manager.cpp:145 | A non-empty ordered endpoint set has a smallest element. |
| `Endpoints.FirstUnique` | src/chromecasts_manager.cpp:145 | The smallest element is unique. |
| `Endpoints.First` | src/chromecasts_manager.cpp:145 | `*endpoints.begin()` comes before every other endpoint of the set. |
| `Endpoints.FirstPrefersIPv4` | src/chromecasts_manager.cpp:145 | Avahi resolves both families (src/chromecast_finder.cpp:115). If any IPv4 endpoint was reported, the device is contacted over IPv4, at an address no larger than any reported IPv4 address. |
| `Endpoints.Numeral` | src/chromecast_channel_impl.h:164 | A number prints as a non-empty string of digits of its base, with no leading zero. The string is "0" iff the number is zero. |
| `Endpoints.NumeralRoundTrip` | src/chromecast_channel_impl.h:164 | Reading the printed digits back gives the number. |
| `Endpoints.Decimal` | src/chromecast_channel_impl.h:164 | A port or an IPv4 byte prints as decimal digits with no leading zero, whose value is the number. |
| `Endpoints.Hex` | src/chromecast_channel_impl.h:164 | An IPv6 group prints as lower-case hex digits whose value is the group. |
| `Endpoints.Dotted` | src/chromecast_channel_impl.h:164 | An IPv4 address prints with digits and dots only. |
| `Endpoints.BestRun` | src/chromecast_channel_impl.h:164 | The groups that `::` abbreviates form the longest run of zero groups, the leftmost among equals, and only if it spans two or more groups. |
| `Endpoints.V6Text` | src/chromecast_channel_impl.h:164 | IPv6 text holds only hex digits, colons and the dots of an embedded IPv4 address. |
| `Endpoints.CompatibleText` | src/chromecast_channel_impl.h:164 | Six leading zero groups print as `::` and then the dotted last 32 bits. |
| `Endpoints.MappedText` | src/chromecast_channel_impl.h:164 | Five leading zero groups and `ffff` print as `::ffff:` and then the dotted last 32 bits. |
| `Endpoints.AllZeroText` | src/chromecast_channel_impl.h:164 | The all-zero address prints as `::`. |
| `Endpoints.LeadingRunText` | src/chromecast_channel_impl.h:164 | Seven leading zero groups print as `::` and then the last group in hex. |
| `Endpoints.InteriorRunText` | src/chromecast_channel_impl.h:164 | A run of six zero groups between two nonzero ones prints as `x::y`. |
| `Endpoints.EndpointText` | src/chromecast_channel_impl.h:164 | An endpoint prints as its host, a colon and the port. The text after the last colon is the decimal port. The text starts with `[` iff the address is IPv6. |
| `Endpoints.PortReadBack` | src/chromecast_channel_impl.h:164 | The port reads back from an endpoint's text. |
| `Endpoints.V6HostReadBack` | src/chromecast_channel_impl.h:164 | An IPv6 host is bracketed, and the text inside the brackets is the address's IPv6 text. |
| `Endpoints.V4ReadBack` | src/chromecast_channel_impl.h:164 | An IPv4 endpoint's text parses back to the same address and port. |
| `Bytes.BE32` | src/chromecast_connection.cpp:138 | `htobe32` writes four bytes. |
| `Bytes.BE32RoundTrip` | src/chromecast_connection.cpp:194 | `be32toh` of the bytes `htobe32` wrote gives the number back. |
| `Json.Narrow32` | src/chromecast_channel.cpp:32 | `static_cast<int>` of a 64-bit integer lies in the `int` range and agrees with it modulo 2^32. An int-sized value is unchanged. |
| `Json.Truncate` | src/chromecast_channel.cpp:32 | `static_cast<int>` of a double rounds toward zero: it is less than one away, on the zero side. |
| `Json.ToInt` | src/chromecast_channel.cpp:32 | `get<int>` succeeds exactly on a 64-bit integer, or on a double within the `int` range. An integer is narrowed modulo 2^32 and a double truncated. Anything else throws. |
| `Json.NarrowAliases` | src/chromecast_channel.cpp:32 | Integers that agree modulo 2^32 convert to the same `int`. |
| `Json.StringField` | src/chromecast_channel_impl.h:128 | `msg["key"]` converted to a string succeeds iff indexing succeeds and yields a string, and then gives that string. Indexing is `operator[]`: a missing key reads as null, and a non-object, non-null value throws. |
| `Json.IntField` | src/chromecast_channel.cpp:82 | `msg["key"]` converted to `int` succeeds iff indexing yields a number `get<int>` accepts. An int-sized integer comes back unchanged, a wider one wraps modulo 2^32, and a double is truncated. |
| `ChromecastFinder.EqPos` | src/chromecast_finder.cpp:146-151 | The scan stops at the first `=`, or at the end iff there is none. |
| `ChromecastFinder.ParsedPrefixStep` | src/chromecast_finder.cpp:155-156 | Inserting one entry keeps every key seen so far bound to its first value. |
| `ChromecastFinder.ParseTxtFrom` | src/chromecast_finder.cpp:145-158 | The loop fails iff a remaining entry has no `=`. Otherwise every key maps to the value of its first entry. |
| `ChromecastFinder.ParseTxt` | src/chromecast_finder.cpp:143-159 | The TXT list parses iff every entry has an `=`, otherwise it is a logic error. The keys are exactly the entries' prefixes before the first `=`. A duplicated key keeps its first value, because `insert` does not overwrite. |
| `ChromecastFinder.CountKeysAreEndpointsInUse` | src/chromecast_finder.cpp:296-298 | Under the counting invariant, the endpoints of `endpoint_count` are exactly the endpoints some resolver reports. |
| `ChromecastFinder.AttachCounted` | src/chromecast_finder.cpp:248-256 | Recording a new resolver's endpoint and incrementing its count keeps the counting invariant. |
| `ChromecastFinder.DetachCounted` | src/chromecast_finder.cpp:276-282 | Dropping a resolver and decrementing its endpoint's count, erasing it at 0, keeps the counting invariant. |
| `ChromecastFinder.NobodyAtUncounted` | src/chromecast_finder.cpp:250-253 | An endpoint without a count is used by no resolver. |
| `ChromecastFinder.Attach` | src/chromecast_finder.cpp:248-256 | A new endpoint reference. It reports a change iff the endpoint was not yet counted, and the endpoint set gains it. |
| `ChromecastFinder.Detach` | src/chromecast_finder.cpp:239-243 | A dropped endpoint reference. It reports a change iff its count was 1, and only then leaves the endpoint set. |
| `ChromecastFinder.MoveEndpoint` | src/chromecast_finder.cpp:237-256 | A resolver that moves to another endpoint keeps the counting invariant. It reports a change iff the set of distinct endpoints changed. |
| `ChromecastFinder.SetEndpoint` | src/chromecast_finder.cpp:232-257 | Recording a resolver's endpoint reports a change iff the distinct endpoint set changed. |
| `ChromecastFinder.Empty` | src/chromecast_finder.cpp:20-24 | The initial finder satisfies the invariant. |
| `ChromecastFinder.DeviceOfFacts` | src/chromecast_finder.cpp:233 | A resolver is mapped to its device iff the device records an endpoint for it. |
| `ChromecastFinder.AddResolver` | src/chromecast_finder.cpp:204-209 | `add_resolver` fails iff the id is already registered. Otherwise the registry gains exactly that id and the invariant is kept. |
| `ChromecastFinder.LinkedAfterSet` | src/chromecast_finder.cpp:233-235 | Linking a resolver to the device of its name keeps every device consistent with the resolver map. |
| `ChromecastFinder.LinkedAfterDetach` | src/chromecast_finder.cpp:274-282 | Unlinking a resolver from a device that keeps others keeps the bookkeeping consistent. |
| `ChromecastFinder.LinkedAfterDrop` | src/chromecast_finder.cpp:284-286 | Erasing a device whose last resolver left keeps the bookkeeping consistent. |
| `ChromecastFinder.RefreshDevice` | src/chromecast_finder.cpp:227-257 | The device's new record has the new dns and the resolver's endpoint. It reports a change iff the dns or the distinct endpoint set changed. |
| `ChromecastFinder.ChromecastsUpdate` | src/chromecast_finder.cpp:211-262 | A resolution keeps the finder's invariant and touches only the device of that name. |
| `ChromecastFinder.UpdateRecords` | src/chromecast_finder.cpp:216-257 | After a resolution the device exists, with the reported dns and this resolver's endpoint. Other resolvers' endpoints are unchanged. |
| `ChromecastFinder.UpdateReports` | src/chromecast_finder.cpp:214-261 | NEW with the device's info the first time a name is seen. Otherwise UPDATE iff the dns map or the distinct endpoint set changed, and nothing else. |
| `ChromecastFinder.ChromecastsRemove` | src/chromecast_finder.cpp:264-290 | Removing a resolver's endpoint keeps the bookkeeping consistent and unmaps that resolver. |
| `ChromecastFinder.RemoveTouchesOnlyItsDevice` | src/chromecast_finder.cpp:264-270 | An unknown resolver is a no-op. Otherwise only the device of its name can change. |
| `ChromecastFinder.RemoveLastResolver` | src/chromecast_finder.cpp:284-286 | Removing a device's last resolver emits REMOVE and erases the device. |
| `ChromecastFinder.RemoveOtherResolver` | src/chromecast_finder.cpp:276-289 | Otherwise the device keeps its dns and other endpoints. UPDATE is emitted iff an endpoint's count dropped to 0, so the endpoint set changed. |
| `ChromecastFinder.RemoveResolver` | src/chromecast_finder.cpp:192-202 | `remove_resolver` fails iff the id is not registered. Otherwise it unregisters exactly that id and then removes its endpoint. |
| `ChromecastFinder.AddRemoveRoundTrip` | src/chromecast_finder.cpp:192-209 | Adding a fresh resolver and removing it again restores the finder and emits nothing. |
| `ChromecastFinder.Step` | src/chromecast_finder.cpp:100-186 | Each browse or resolve event keeps the invariant. It fails exactly on a browser failure or a NEW whose resolver could not be created, which are runtime errors, or on a duplicate NEW, a REMOVE of an unknown id, or a TXT entry without `=`, which are logic errors. The updates it emits form a well-formed stream whose key set is the finder's. |
| `ChromecastFinder.OneUpdate` | src/chromecast_finder.cpp:292-300 | A single update is well-formed iff NEW is for an unknown name, the others are for a known one, and NEW/UPDATE carry an endpoint. |
| `ChromecastFinder.KeptDeviceHasEndpoint` | src/chromecast_finder.cpp:284-289 | A device that stays in the map has at least one endpoint, so the info sent for it does too. |
| `ChromecastFinder.StreamOfUpdate` | src/chromecast_finder.cpp:259-261 | The updates of a resolution are well-formed and keep the receiver's key set equal to the finder's. |
| `ChromecastFinder.StreamOfRemove` | src/chromecast_finder.cpp:284-289 | The same holds for removals. |
| `ChromecastFinder.RemoveAfterResolverFailureThrows` | src/chromecast_finder.cpp:171-176 | A resolver failure unregisters the resolver, so a later browser REMOVE for it raises "wasn't there". |
| `ChromecastFinder.BrowserRemoveTolerant` | src/chromecast_finder.cpp:126-129 | The intended browser REMOVE never throws. It removes a registered resolver exactly as `remove_resolver` does, and ignores one that is already gone. The invariant and the update stream's well-formedness are kept. |
| `ChromecastFinder.FailedServiceLeavesQuietly` | src/chromecast_finder.cpp:113-129 | With the tolerant REMOVE, NEW, then a resolver failure, then REMOVE restores the finder exactly and reports no update. |
| `ChromecastsManager.FinderCallback` | src/chromecasts_manager.cpp:44-61 | NEW (re)creates a record under the name and asks for a sink. UPDATE replaces the info of the existing record. REMOVE erases the key. A record replaced by NEW or erased by REMOVE is destroyed: its connection, if any, is disconnected, and then its sink is freed. Other records are unchanged. |
| `ChromecastsManager.Destroy` | src/chromecasts_manager.h:71-79 | Destroying a record releases its members in reverse declaration order. The connection (`~ChromecastConnection`, src/chromecast_connection.cpp:42-44) is disconnected first. Then the sink named after the record (`~AudioSink`, src/audio_sinks_manager.cpp:447-451) has its `free` dispatched. |
| `ChromecastsManager.FinderCallbackBalanced` | src/chromecasts_manager.cpp:54-60 | Every sink requested so far is either held by the live record of its name or freed exactly once. Every finder update keeps this: no sink leaks and none is freed twice. |
| `ChromecastsManager.ApplyUpdatesBalanced` | src/chromecasts_manager.cpp:54-60 | The same holds across a whole well-formed update stream. |
| `ChromecastsManager.ApplyUpdates` | src/chromecasts_manager.cpp:54-60 | Applying a well-formed update stream leaves exactly the finder's key set. |
| `ChromecastsManager.ApplyOne` | src/chromecasts_manager.cpp:54-60 | A one-update stream is one callback. |
| `ChromecastsManager.Empty` | src/chromecasts_manager.cpp:44-61 | The empty registry mirrors the empty finder, and no sink is requested or freed. |
| `ChromecastsManager.MirrorAfterReport` | src/chromecasts_manager.cpp:54-60 | A report about one device keeps the registry mirroring the finder. |
| `ChromecastsManager.MirrorAfterOne` | src/chromecasts_manager.cpp:54-60 | A single NEW/UPDATE/REMOVE keeps the mirror, and the UPDATE it may be always finds its record. |
| `ChromecastsManager.MirrorAfterUpdate` | src/chromecasts_manager.cpp:58 | After a resolution, the finder's updates are well-formed for the registry and keep it a mirror. |
| `ChromecastsManager.MirrorAfterRemove` | src/chromecasts_manager.cpp:58 | After a resolver removal, the same holds. |
| `ChromecastsManager.MirrorAfterStep` | src/chromecasts_manager.cpp:58 | Every successful finder event sends an update stream in which no UPDATE or REMOVE precedes its NEW and no NEW repeats a live name. The registry stays a mirror. |
| `ChromecastsManager.Drive` | src/chromecasts_manager.cpp:44-61 | Across any event sequence, the finder's invariant holds and the registry mirrors the finder. |
| `ChromecastsManager.AvahiFailureEndsRun` | src/chromecast_finder.cpp:110-120 | A browser failure, or a NEW whose resolver cannot be created, ends the run with a runtime error and changes neither the finder nor the registry. |
| `ChromecastsManager.MirroredRecordHasEndpoint` | src/chromecasts_manager.cpp:145 | Every record in the registry carries a non-empty endpoint set, so `*endpoints.begin()` is defined. |
| `ChromecastsManager.Subscribe` | src/chromecasts_manager.cpp:63-74 | A known name gets the handler installed on its record, and the manager is otherwise exactly as before: other records, sinks and releases. An unknown name only warns and changes nothing. |
| `ChromecastsManager.Activation` | src/chromecasts_manager.cpp:140-155 | Activation opens a fresh connection to the smallest endpoint. Deactivation drops the connection. |
| `ChromecastsManager.Activate` | src/chromecasts_manager.cpp:140-155 | Activating a known device changes only that record: the names are the same and every other record is unchanged. The connection it held before is released: deactivation resets it and activation replaces it. No sink is freed, so the sink balance is kept. The program registers this callback through `set_activation_callback` (src/chromecasts_manager.cpp:101). `AudioSink` in src/audio_sinks_manager.h:104-105 declares that setter only as a TODO, so nothing in these sources ever invokes the callback. The model states what it does when invoked. |
| `ChromecastsManager.ActivationPossible` | src/chromecasts_manager.cpp:145 | In a mirrored registry the chosen endpoint is one the finder reported. |
| `ChromecastsManager.ConnectionError` | src/chromecasts_manager.cpp:157-161 | A connection error drops the connection and changes nothing else. |
| `ChromecastsManager.OnConnected` | src/chromecasts_manager.cpp:163-187 | `connected(false)` drops the connection. `connected(true)` appends exactly two messages to a live connection and changes nothing else. It is undefined behaviour (a null dereference) exactly when `connected(true)` finds the connection already reset. |
| `ChromecastsManager.ConnectedAfterReset` | src/chromecasts_manager.cpp:147-175 | The handler is queued, so a connection error or a deactivation can reset the connection first. A queued `connected(true)` then dereferences null, and a queued `connected(false)` only drops the connection again. |
| `ChromecastsManager.GreetingIsChannelStart` | src/chromecasts_manager.cpp:167-180 | Those two messages are a CONNECT on the connection namespace, then a PING on the heartbeat namespace, from "sender-0" to "receiver-0". They are what a channel's `start` sends. |
| `ChromecastChannel.Register` | src/chromecast_channel_impl.h:71-73 | Registering a namespace binds it to the new handler, overwriting any previous one. Other namespaces are unchanged. |
| `ChromecastChannel.NewChannel` | src/chromecast_channel.cpp:20-29 | A new channel has the connection and heartbeat handlers plus the role's own, no pending request, and the role's first request id. |
| `ChromecastChannel.Dispatch` | src/chromecast_channel_impl.h:46-68 | A message reaches a handler iff it comes from the peer or is broadcast, has a present STRING payload that parses, and its namespace up to the first NUL has a handler. The table is searched with the namespace's C string, and the handler is the one registered for that key. An unexpected sender is dropped. An unknown namespace calls nothing and warns iff not broadcast. |
| `CastMessages.CString` | src/chromecast_channel_impl.h:47 | The C string of a namespace is its longest prefix without NUL, and it stops at a NUL when one is present. A string without NUL is its own C string. |
| `CastMessages.CStringCut` | src/chromecast_channel_impl.h:47 | A NUL cuts the text there, whatever follows it. |
| `ChromecastChannel.NulCutsNamespace` | src/chromecast_channel_impl.h:47-56 | A namespace with a NUL reaches the handler registered for the part before the NUL, whatever follows it. |
| `ChromecastChannel.ReceiverNamespaceWithNul` | src/chromecast_channel_impl.h:47-56 | A peer's message on the receiver namespace followed by "\0x" runs a main channel's receiver handler. |
| `ChromecastChannel.RegisterOverwrites` | src/chromecast_channel_impl.h:72 | After a registration, messages whose namespace names it as a C string go to the new handler. |
| `ChromecastChannel.SendMessage` | src/chromecast_channel_impl.h:76-86 | `send_message` addresses a STRING message from the channel's name to its destination on the namespace. Its payload is the JSON value. `PeerAccepts` states the consequence. |
| `ChromecastChannel.PeerAccepts` | src/chromecast_channel_impl.h:76-86 | An outgoing message carries the channel's name as source, its destination, the namespace and a STRING payload. The peer channel therefore delivers it. |
| `ChromecastChannel.Start` | src/chromecast_channel_impl.h:101-109 | `start` sends CONNECT on the connection namespace and then PING on the heartbeat namespace. |
| `ChromecastChannel.HandleHeartbeat` | src/chromecast_channel_impl.h:126-139 | A PING yields exactly one PONG on the heartbeat namespace. PONG, other types and a missing type yield nothing. |
| `ChromecastChannel.HandleReceiver` | src/chromecast_channel.cpp:31-39 | A pending request id, after `get<int>`, calls its callback once with the message and erases the entry. An unknown, missing or non-numeric id changes nothing. |
| `ChromecastChannel.WideIdAnswersRequest` | src/chromecast_channel.cpp:32 | A `requestId` that is a 64-bit integer agreeing with a pending id modulo 2^32 answers that request. For example, 4295590749 answers 623453. |
| `ChromecastChannel.HandleApp` | src/chromecast_channel.cpp:81-99 | For a pending id: OK gives success with `data`, ERROR gives failure with `message`, and another type calls nothing; all three erase the entry. A missing type, or an ERROR without a string message, throws before the erase. An unknown id changes nothing. |
| `ChromecastChannel.RunHandler` | src/chromecast_channel_impl.h:56-60 | A handler only ever changes the pending table. |
| `ChromecastChannel.Receive` | src/chromecast_channel_impl.h:46-68 | A dropped message changes nothing and sends nothing. |
| `ChromecastChannel.PingPong` | src/chromecast_channel_impl.h:127-145 | Between two peer channels, the PING of `start` is answered by one PONG, and that PONG is accepted and answered by nothing. |
| `ChromecastChannel.Request` | src/chromecast_channel.cpp:41-68 | A request takes the current id (post-increment), which is not pending, and registers the callback under it. The table grows by one. The counter stays within `int`. |
| `ChromecastChannel.LoadApp` | src/chromecast_channel.cpp:41-49 | Sends LAUNCH with `appId` and the fresh `requestId` on the receiver namespace and no `sessionId`. Registers the callback under that id. |
| `ChromecastChannel.StopApp` | src/chromecast_channel.cpp:51-59 | Sends LAUNCH (as written) with exactly three fields: `type`, `sessionId` and the fresh `requestId`. It carries no `appId`, so only the missing `appId` tells it apart from a launch. Registers the callback. |
| `ChromecastChannel.StopSession` | src/chromecast_channel.cpp:51-59 | The intended stop request: STOP with `sessionId` and the fresh `requestId`, exactly three fields, on the receiver namespace. Registers the callback. |
| `ChromecastChannel.StopAppSendsLaunch` | src/chromecast_channel.cpp:55 | As written, a stop request has the type of a launch. It differs from the intended STOP request in its type and in nothing else. |
| `ChromecastChannel.GetStatus` | src/chromecast_channel.cpp:61-68 | Sends GET_STATUS with the fresh `requestId` and registers the callback. |
| `ChromecastChannel.Addresses` | src/chromecast_channel_impl.h:161-167 | One `"ws://"+endpoint` string per endpoint, in iteration order. |
| `ChromecastChannel.AddressesReadBack` | src/chromecast_channel_impl.h:161-167 | Each address reads back as its endpoint. After `ws://`, the port follows the last colon, an IPv4 endpoint parses back whole, and an IPv6 host is the bracketed text of its address. |
| `ChromecastChannel.StartStream` | src/chromecast_channel_impl.h:153-170 | Sends START_STREAM with the fresh `requestId`, the addresses and `deviceName` on the stream namespace, and registers the callback under that id. |
| `ChromecastChannel.RequestIdsAdvance` | src/chromecast_channel.cpp:43-66 | Consecutive requests use consecutive ids, so outstanding ids are distinct. |
| `ChromecastChannel.ReceiverRoundTrip` | src/chromecast_channel.cpp:31-36 | The answer to a receiver request calls its callback once and restores the pending table. The same answer again calls nothing. |
| `ChromecastChannel.StreamRoundTrip` | src/chromecast_channel.cpp:81-93 | An OK answer to START_STREAM delivers its `data` to the callback once and erases the entry. A repeat calls nothing. |
| `ChromecastConnection.Frame` | src/chromecast_connection.cpp:134-150 | A frame is the payload length as a big-endian uint32 followed by the payload, so it is 4 bytes longer than the payload. |
| `ChromecastConnection.OnReadError` | src/chromecast_connection.cpp:111-132 | EOF or an SSL short read reports `connected(false)`. A cancelled read shuts TLS down iff the socket is open. Any other error is reported. |
| `ChromecastConnection.NewReader` | src/chromecast_connection.cpp:66-73 | A new connection awaits its connect. |
| `ChromecastConnection.GrowBuffer` | src/chromecast_connection.cpp:199-202 | The buffer is only ever enlarged, and only when smaller than the length. It then becomes `length * 1.5` truncated, so twice the new size is at most three times the length and more than that minus two. It stays empty iff it was empty and the length is 0. |
| `ChromecastConnection.ReadStep` | src/chromecast_connection.cpp:87-223 | A header above 2^20 is reported as too big before any body read. A header of length 0 while no buffer exists fails `assert(read_buffer != nullptr)`, and with assertions enabled the process aborts. Otherwise the body read is issued with a buffer of at least the length. A body is delivered and followed by the next header read. A handshake reports `connected(true)` and starts reading. Failed reads are classified. |
| `ChromecastConnection.ReadFailure` | src/chromecast_connection.cpp:121-132 | A failed read ends reading and has the classified effect. |
| `ChromecastConnection.ReadRun` | src/chromecast_connection.cpp:183-223 | The reader's bound holds after any completion sequence, and the buffer never shrinks. |
| `ChromecastConnection.FrameRoundTrip` | src/chromecast_connection.cpp:189-223 | A frame sent by the peer is read back as exactly its payload, with the buffer grown to hold it, unless it is empty and no buffer exists yet. |
| `ChromecastConnection.EmptyFirstFrameAborts` | src/chromecast_connection.cpp:199-203 | An empty frame before any buffer exists aborts the process at the assertion (assertions enabled), and nothing after its header is read. |
| `ChromecastConnection.OversizedFrameRefused` | src/chromecast_connection.cpp:194-198 | A header announcing more than 1 MiB is reported and nothing is read or delivered. |
| `ChromecastConnection.FramesDeliveredInOrder` | src/chromecast_connection.cpp:212-223 | A sequence of frames is delivered as its payloads, in order, and the reader then awaits the next header. The exception is a first frame that is empty while no buffer exists. Once a frame is read a buffer exists, so later empty frames are delivered. |
| `ChromecastConnection.NewWriter` | src/chromecast_connection.cpp:143-149 | The write queue starts empty with no write outstanding. |
| `ChromecastConnection.Send` | src/chromecast_connection.cpp:143-149 | A frame joins the back of the queue. A write starts iff the queue was empty, and then none was outstanding. |
| `ChromecastConnection.WriteDone` | src/chromecast_connection.cpp:164-181 | A completed write pops the front and starts the next iff one remains. A failed write stops the queue and is reported unless it was cancelled. |
| `ChromecastConnection.WriteStep` | src/chromecast_connection.cpp:143-181 | One send or completion keeps "a write is outstanding iff the queue is non-empty" and conserves frames. |
| `ChromecastConnection.WriteRun` | src/chromecast_connection.cpp:143-181 | FIFO: across any interleaving, the written frames followed by the queued ones are exactly the frames sent, in order. At most one write is outstanding. |
| `AudioSinksManager.FragsizeIsTwentyMilliseconds` | src/audio_sinks_manager.cpp:342-343 | The record fragment is 3528 bytes, 20 ms of 44.1 kHz s16 stereo. |
| `AudioSinksManager.Unregister` | src/audio_sinks_manager.cpp:217-226 | The sink leaves the set. The context is disconnected iff the set is then empty while stopping, with a context. |
| `AudioSinksManager.StopSink` | src/audio_sinks_manager.cpp:286-299 | Starts unloading the module. If that cannot start, the sink is DEAD and unregistered. |
| `AudioSinksManager.StopDead` | src/audio_sinks_manager.cpp:250-258 | A LOADED sink, or a RECORDING one whose disconnect failed, unloads its module and ends DEAD. |
| `AudioSinksManager.Free` | src/audio_sinks_manager.cpp:242-263 | `free` on DEAD is a no-op. Every other state ends DEAD: NONE unregisters at once, STARTED is left to the load callback, LOADED unloads, and RECORDING disconnects its stream (or unloads if that fails). Only this sink is touched. |
| `AudioSinksManager.FreeIdempotent` | src/audio_sinks_manager.cpp:247-262 | Freeing twice is freeing once. |
| `AudioSinksManager.ArgumentsCarryName` | src/audio_sinks_manager.cpp:270-274 | The module arguments name the sink by its identifier, and their quoted description reads back as the device name. |
| `AudioSinksManager.StartSink` | src/audio_sinks_manager.cpp:265-284 | From NONE the sink is STARTED and loads `module-null-sink`. If the load cannot start, it is DEAD and unregistered. |
| `AudioSinksManager.ModuleLoaded` | src/audio_sinks_manager.cpp:301-361 | A failed load: DEAD and unregistered. A sink freed meanwhile unloads the new module. Otherwise the sink is RECORDING iff the stream is created and connected to `<identifier>.monitor` with the 20 ms fragment, and DEAD if not. |
| `AudioSinksManager.LoadedAt` | src/audio_sinks_manager.cpp:313-361 | A successful load records the module index and continues as above. |
| `AudioSinksManager.Record` | src/audio_sinks_manager.cpp:321-360 | A LOADED sink records iff the stream is created and connected. Otherwise it is freed. |
| `AudioSinksManager.ModuleUnloaded` | src/audio_sinks_manager.cpp:363-375 | Successful or not, an unload unregisters the sink. |
| `AudioSinksManager.StreamStateChanged` | src/audio_sinks_manager.cpp:377-404 | FAILED sets DEAD and then, like TERMINATED, unloads the module. Other states change nothing. |
| `AudioSinksManager.StreamRead` | src/audio_sinks_manager.cpp:406-438 | A failed peek or an empty read calls nothing. Otherwise the callback, if set, is called once with the count `data_size/4`, the number of whole samples in the peeked bytes. The buffer it gets is null exactly when the peek reported a hole; the hole is only logged. |
| `AudioSinksManager.CreateNewSink` | src/audio_sinks_manager.cpp:198-215 | While stopping, a new sink is freed and never registered; the context is disconnected iff no sink is registered and a context exists. Otherwise it is registered. With a READY context it is started. If the module load cannot be issued it is DEAD and unregistered again, with no effect. Without a READY context it stays NONE. |
| `AudioSinksManager.FreeAll` | src/audio_sinks_manager.cpp:191-193 | Freeing every sink of a snapshot leaves each of them DEAD and the others untouched. |
| `AudioSinksManager.Stop` | src/audio_sinks_manager.cpp:180-196 | A second `stop` does nothing. The first sets `stopping`. It disconnects the context at once if no sink is registered; otherwise every registered sink ends DEAD. |
| `AudioSinksManager.StopIdempotent` | src/audio_sinks_manager.cpp:182 | Stopping twice is stopping once. |
| `AudioSinksManager.CreatedAfterStopIsFreed` | src/audio_sinks_manager.cpp:203-204 | A sink created after `stop` ends DEAD and unregistered. |
| `AudioSinksManager.StopBeforeReady` | src/audio_sinks_manager.cpp:185-193 | If every registered sink is still NONE, `stop` unregisters them all and disconnects the context. |
| `AudioSinksManager.FreeAllInPlace` | src/audio_sinks_manager.cpp:191-193 | The loop as written fails at its current position whenever that sink is registered and still NONE, because `free` erases it. A run that does not fail equals freeing a snapshot of the remaining order. |
| `AudioSinksManager.StopInPlaceInvalidatesIterator` | src/audio_sinks_manager.cpp:191-193 | The loop as written erases the element it stands on when the first sink is NONE. |

## Left out

- The browser side of the receiver page: `window.onload` wiring, `AudioContext`/`ScriptProcessor`, the `WebSocket` object, and the `setTimeout` underrun log. These are UI and platform objects.
- `SoundPlayer` constructor's sample-rate check: it compares against the platform's `AudioContext`, which is not modelled.
- Overflow trimming of the jitter buffer: the code has only a TODO for it.
- Float32 arithmetic: `/ 32768` is exact for 16-bit values, so it is modelled with `real`.
- `SoundReceiver.Decode`: a length that is not a multiple of 4 is an error result rather than a precondition, because the code throws a RangeError there.
- The event loops and adapters: asio strands, the Avahi poll and PulseAudio main-loop adapters, and `defer.h`. Every callback is modelled as running to completion in the order events arrive.
- `Chromecast::update_info` posts the assignment to the device's strand; the model applies it at once.
- `ChromecastFinder::stop`, `start_discovery` and `client_callback`: these drive the Avahi client and are not modelled beyond the browse and resolve events.
- Resolver identity: resolvers are keyed by their id (interface, protocol, name), not by the Avahi pointer. `add_resolver` keeps these in one-to-one correspondence.
- `ChromecastsManager.Drive` ends at the first impossible event (a resolver event for an unregistered resolver) or the first error thrown, logic or runtime, as the program would. What a C++ exception leaving an Avahi C callback then does is not modelled.
- The WebSocket broadcaster, `network_address.cpp`, `pa_test.cpp`, `main.cpp`, `pre-commit.py` and `hash_combine`. These are server wrappers, OS enumeration, a manual test, bootstrap and tooling.
- Protobuf and JSON text: messages are records, and a payload is a JSON value or malformed text. Serialization and parsing are not modelled, so a frame's payload is opaque bytes.
- Heartbeat timer rescheduling every 20 s, and `handle_connect_channel`: the first is a timer and the second only logs. The connection namespace handler is modelled as doing nothing.
- `ChromecastChannel.Request`: requires the counter below `INT_MAX`. The next `curr_request_id++` would overflow a signed `int`, which C++ leaves undefined. The main channel gets there after 2^31 - 623454 requests.
- `Json.ToInt`: a double is represented by its exact value. Which reals are doubles, and the rounding of JSON text to a double, are not modelled. Two cases have no defined result in C++, and the model treats both as a failed conversion: a double outside the `int` range, and an integer literal beyond 64 bits (nlohmann stores it as a double).
- `Endpoints.V6Text`: only the printing side is modelled. Reading IPv6 text back (`inet_pton`) is not. `V6HostReadBack` shows only that the bracketed host is the address's text. Scope ids are absent, because the Avahi address text carries none.
- `ChromecastsManager.ConnectionError` and `ChromecastsManager.OnConnected`: these work on one record, and dropping the connection there is not logged in the manager's `released` list. That list is kept by `FinderCallback` and `Activate`. What happens after the null dereference of a late `connected(true)` is undefined and is not modelled beyond naming it. `disconnect`'s check that the socket is still open is not modelled.
- Destruction timing: a record's destructor runs when the map drops the last `shared_ptr`. Handlers still queued on the record's strand hold it a little longer. The model releases at once.
- `Chromecast::connection_message_handler` and `volume_callback`: these only log.
- `Bytes.BE32RoundTrip`: only the direction "read what was written" is proved, not that every 4-byte header comes from one length.
- TLS shutdown completion and `disconnect`: these drive the socket and are not modelled.
- `AudioSinksManager`: the context state callback, the subscription and sink-input callbacks, volume handling and `pa_stream_drop` are left out.
- `AudioSinksManager.CreateNewSink`: as in the code, freeing a sink that was never registered still runs `unregister_audio_sink`. While stopping, that issues another `pa_context_disconnect`; the model emits it too.
- `Util.GenerateRandomString`: the random generator is replaced by the sequence of draws it makes.
- Assertions are taken to be enabled, that is, a build without `NDEBUG`. `ChromecastConnection.ReadStep` and `EmptyFirstFrameAborts` therefore abort where `assert(read_buffer != nullptr)` fails. With `NDEBUG`, the zero-length read into the null buffer would complete and deliver an empty message. The same holds for the non-empty-alphabet assertion of `generate_random_string` (src/util.cpp:9).
- `AudioSinksManager.StreamRead`: the samples callback receives the null buffer of a hole together with a positive count. What `send_samples` and the WebSocket server then do with it is not part of this model.

## Findings

| source | as written | input that shows it | evidently intended | confidence | as-written member | corrected member |
|---|---|---|---|---|---|---|
| src/chromecast_channel.cpp:51-59 | `stop_app` sends `{"type": "LAUNCH", "sessionId": …}`, the type of `load_app`'s request. | Any call of `stop_app`: the receiver namespace reads a LAUNCH without an `appId`, not a request to stop the session. | Send type STOP with the session id, the receiver namespace's request for ending a session. The program never calls `stop_app`. | not executed | `ChromecastChannel.StopAppSendsLaunch` | `ChromecastChannel.StopSession` |
| src/chromecast_finder.cpp:126-129 | A resolver failure (src/chromecast_finder.cpp:171-176) calls `remove_resolver`, which unregisters the resolver. The browser later reports the service gone, and `remove_resolver` then throws `logic_error` "wasn't there" out of the Avahi C callback. | A service is announced (NEW), its resolution fails (FAILURE), and it then leaves the network (REMOVE). | Treat a REMOVE for a resolver that is already gone as nothing to do, so that a failed service can leave without an exception. | not executed | `ChromecastFinder.RemoveAfterResolverFailureThrows` | `ChromecastFinder.BrowserRemoveTolerant` |
| src/audio_sinks_manager.cpp:191-193 | `stop` frees every sink inside a range-for over `audio_sinks`. `free` on a NONE sink (or a LOADED one whose unload cannot start) calls `unregister_audio_sink`, which erases that element from the set while the loop stands on it. Advancing the iterator afterwards is undefined behaviour. | The context never becomes READY, one Chromecast is discovered (its sink is registered in state NONE), and the program stops. | Iterate over a copy of the set taken before the loop, so that every registered sink is freed exactly once. | not executed | `AudioSinksManager.StopInPlaceInvalidatesIterator` | `AudioSinksManager.Stop` |
