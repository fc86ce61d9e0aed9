/**
 * The Chromecast virtual-connection channels of src/chromecast_channel_impl.h
 * and src/chromecast_channel.cpp: filtering of incoming messages, the
 * namespace handler table, the connection and heartbeat namespaces, and the
 * request-id bookkeeping of the receiver (main) and streaming-app channels.
 *
 * Handlers and callbacks are identified by value: a `Handler` names one of the
 * member functions the constructors register, a `Callback` token stands for a
 * caller's callback. Handler effects are returned as a list of `Effect`s.
 */
module ChromecastChannel {
  import opened Wrappers
  import opened Json
  import opened Endpoints
  import opened CastMessages

  /** The namespace handlers the channel constructors register. */
  datatype Handler = ConnectHandler | HeartbeatHandler | ReceiverHandler | AppHandler

  /** MainChromecastChannel (receiver namespace) or AppChromecastChannel (streaming app). */
  datatype Role = Main | App

  /** A caller's callback, stored in the pending-request table. */
  type Callback = nat

  datatype Channel = Channel(name: string, destination: string, role: Role,
                             handlers: map<string, Handler>, currRequestId: int,
                             pending: map<int, Callback>)

  const MAIN_FIRST_REQUEST_ID: int := 623453
  const APP_FIRST_REQUEST_ID: int := 1

  function FirstRequestId(role: Role): int {
    match role
    case Main => MAIN_FIRST_REQUEST_ID
    case App => APP_FIRST_REQUEST_ID
  }

  /**
   * Request ids only grow from the role's first id and stay within `int`, and
   * every outstanding id was handed out before (so it is below the next one).
   */
  ghost predicate Valid(ch: Channel) {
    && FirstRequestId(ch.role) <= ch.currRequestId <= INT32_MAX
    && forall id :: id in ch.pending ==> FirstRequestId(ch.role) <= id < ch.currRequestId
  }

  /** The handler table the constructors of a channel with this role build. */
  function Handlers(role: Role): map<string, Handler> {
    var basic := map[CONNECTION_NS := ConnectHandler, HEARTBEAT_NS := HeartbeatHandler];
    match role
    case Main => basic[RECEIVER_NS := ReceiverHandler]
    case App => basic[STREAM_APP_NS := AppHandler]
  }

  /** `register_namespace_callback`: a later registration replaces an earlier one. */
  function Register(ch: Channel, ns: string, h: Handler): (r: Channel)
    ensures ns in r.handlers && r.handlers[ns] == h
    ensures forall other :: other != ns ==>
              (other in r.handlers <==> other in ch.handlers)
              && (other in ch.handlers ==> r.handlers[other] == ch.handlers[other])
    ensures r.(handlers := ch.handlers) == ch
  {
    ch.(handlers := ch.handlers[ns := h])
  }

  /**
   * The constructors: the basic channel registers the connection and heartbeat
   * namespaces, then the main channel registers the receiver namespace with
   * request ids from 623453, or the app channel the streaming-app namespace
   * with request ids from 1.
   */
  function NewChannel(name: string, destination: string, role: Role): (ch: Channel)
    ensures Valid(ch)
    ensures ch.handlers == Handlers(role)
    ensures ch.pending == map[]
    ensures ch.currRequestId == FirstRequestId(role)
    ensures ch.name == name && ch.destination == destination && ch.role == role
  {
    var base := Channel(name, destination, role, map[], 0, map[]);
    var basic := Register(Register(base, CONNECTION_NS, ConnectHandler), HEARTBEAT_NS, HeartbeatHandler);
    match role
    case Main => Register(basic.(currRequestId := MAIN_FIRST_REQUEST_ID), RECEIVER_NS, ReceiverHandler)
    case App => Register(basic.(currRequestId := APP_FIRST_REQUEST_ID), STREAM_APP_NS, AppHandler)
  }

  // ---------------------------------------------------------------------------
  // Incoming messages

  /** Why `real_message_dispatch` called no handler; an unknown namespace is warned about unless broadcast. */
  datatype Drop = UnexpectedSender | BinaryPayload | NoPayload | NotJson | UnknownNamespace(warned: bool)

  datatype Dispatched = Deliver(handler: Handler, msg: Json) | Dropped(reason: Drop)

  /** The sender check: the channel's peer, or a broadcast. */
  predicate FromPeer(ch: Channel, m: CastMessage) {
    m.sourceId == ch.destination || m.destinationId == BROADCAST
  }

  /**
   * `real_message_dispatch`: a message reaches a handler exactly when it comes
   * from the peer (or is broadcast), has a STRING payload that is present and
   * parses as JSON, and its namespace has a handler, which is then the one
   * registered for that namespace. The table is searched with the namespace's
   * C string, so the namespace counts only up to its first NUL.
   */
  function Dispatch(ch: Channel, m: CastMessage): (r: Dispatched)
    ensures r.Deliver? <==>
              && FromPeer(ch, m) && m.payloadType == STRING && m.payloadUtf8.Some?
              && m.payloadUtf8.value.JsonText? && CString(m.namespace) in ch.handlers
    ensures r.Deliver? ==>
              r.handler == ch.handlers[CString(m.namespace)] && m.payloadUtf8 == Some(JsonText(r.msg))
    ensures r == Dropped(UnexpectedSender) <==> !FromPeer(ch, m)
    ensures r.Dropped? && r.reason.UnknownNamespace? ==>
              CString(m.namespace) !in ch.handlers
              && (r.reason.warned <==> m.destinationId != BROADCAST)
  {
    var ns := CString(m.namespace);
    if m.sourceId != ch.destination && m.destinationId != BROADCAST then Dropped(UnexpectedSender)
    else if m.payloadType != STRING then Dropped(BinaryPayload)
    else if m.payloadUtf8.None? then Dropped(NoPayload)
    else if ns in ch.handlers then
      match m.payloadUtf8.value
      case JsonText(json) => Deliver(ch.handlers[ns], json)
      case Malformed(_) => Dropped(NotJson)
    else Dropped(UnknownNamespace(m.destinationId != BROADCAST))
  }

  /**
   * A namespace with a NUL is looked up by the part before it: a peer's
   * message on a registered namespace followed by a NUL and anything at all
   * reaches that namespace's handler.
   */
  lemma NulCutsNamespace(ch: Channel, prefix: string, rest: string, json: Json)
    requires '\0' !in prefix && prefix in ch.handlers
    ensures var m := JsonMessage(ch.destination, ch.name, prefix + ['\0'] + rest, json);
            Dispatch(ch, m) == Deliver(ch.handlers[prefix], json)
  {
    CStringCut(prefix, rest);
  }

  /** The receiver namespace followed by "\0x" reaches the receiver handler of a main channel. */
  lemma ReceiverNamespaceWithNul(ch: Channel, json: Json)
    requires ch.handlers == Handlers(Main)
    ensures var m := JsonMessage(ch.destination, ch.name, RECEIVER_NS + "\0x", json);
            Dispatch(ch, m) == Deliver(ReceiverHandler, json)
  {
    assert '\0' !in RECEIVER_NS;
    NulCutsNamespace(ch, RECEIVER_NS, "x", json);
    assert RECEIVER_NS + "\0x" == RECEIVER_NS + ['\0'] + "x";
  }

  /** A registration takes effect: an accepted message on `ns` goes to the new handler. */
  lemma RegisterOverwrites(ch: Channel, ns: string, h: Handler, m: CastMessage, json: Json)
    requires FromPeer(ch, m) && m.payloadType == STRING && m.payloadUtf8 == Some(JsonText(json))
    requires CString(m.namespace) == ns
    ensures Dispatch(Register(ch, ns, h), m) == Deliver(h, json)
  {
  }

  /** The `Result` handed to a start-stream callback. */
  datatype AppResult = Ok(data: Json) | Error(message: string)

  datatype Effect =
    | Send(message: CastMessage)
    | StatusReply(callback: Callback, status: Json)
    | AppReply(callback: Callback, result: AppResult)

  /**
   * `send_message`: from the channel's name to its destination, as JSON text
   * that parses back to the value sent.
   */
  function SendMessage(ch: Channel, ns: string, msg: Json): (m: CastMessage)
    ensures m.sourceId == ch.name && m.destinationId == ch.destination && m.namespace == ns
    ensures m.payloadType == STRING && m.payloadUtf8.Some?
    ensures Parse(m.payloadUtf8.value) == Some(msg) && Body(m) == msg
  {
    JsonMessage(ch.name, ch.destination, ns, msg)
  }

  /** What one channel sends, the channel at the other end accepts. */
  lemma PeerAccepts(a: Channel, b: Channel, ns: string, msg: Json)
    requires b.destination == a.name
    requires CString(ns) in b.handlers
    ensures Dispatch(b, SendMessage(a, ns, msg)) == Deliver(b.handlers[CString(ns)], msg)
  {
  }

  /** `start`: CONNECT on the connection namespace, then the first PING. */
  function Start(ch: Channel): (sent: seq<CastMessage>)
    ensures |sent| == 2
    ensures sent[0].namespace == CONNECTION_NS && sent[1].namespace == HEARTBEAT_NS
    ensures forall i :: 0 <= i < 2 ==>
              sent[i].sourceId == ch.name && sent[i].destinationId == ch.destination
              && sent[i].payloadType == STRING
    ensures sent[0].payloadUtf8 == Some(JsonText(TypeOnly("CONNECT")))
    ensures sent[1].payloadUtf8 == Some(JsonText(TypeOnly("PING")))
  {
    [SendMessage(ch, CONNECTION_NS, TypeOnly("CONNECT")), SendMessage(ch, HEARTBEAT_NS, TypeOnly("PING"))]
  }

  /** `handle_heartbeat_channel`: exactly one PONG for a PING, nothing otherwise. */
  function HandleHeartbeat(ch: Channel, msg: Json): (effects: seq<Effect>)
    ensures |effects| == (if StringField(msg, "type") == Some("PING") then 1 else 0)
    ensures |effects| == 1 ==> effects[0] == Send(SendMessage(ch, HEARTBEAT_NS, TypeOnly("PONG")))
  {
    match StringField(msg, "type")
    case None => []
    case Some(t) => if t == "PING" then [Send(SendMessage(ch, HEARTBEAT_NS, TypeOnly("PONG")))] else []
  }

  /**
   * `handle_receiver_channel`: a response whose `requestId` is pending calls
   * that request's callback once with the whole message and retires the id;
   * any other message changes nothing.
   */
  function HandleReceiver(ch: Channel, msg: Json): (r: (Channel, seq<Effect>))
    requires Valid(ch)
    ensures Valid(r.0)
    ensures IntField(msg, "requestId").Some? && IntField(msg, "requestId").value in ch.pending ==>
              var id := IntField(msg, "requestId").value;
              r.0 == ch.(pending := ch.pending - {id}) && r.1 == [StatusReply(ch.pending[id], msg)]
    ensures !(IntField(msg, "requestId").Some? && IntField(msg, "requestId").value in ch.pending) ==>
              r == (ch, [])
  {
    match IntField(msg, "requestId")
    case None => (ch, [])
    case Some(id) =>
      if id in ch.pending then (ch.(pending := ch.pending - {id}), [StatusReply(ch.pending[id], msg)])
      else (ch, [])
  }

  /**
   * `handle_app_channel` for a pending `requestId`: OK hands the `data` member
   * (null when absent) to the callback, ERROR hands over the `message` string,
   * any other type calls nothing; in all three cases the id is retired. A
   * `type` that is not a string, or an ERROR without a string `message`, throws
   * before the erase and leaves the table as it was. An unknown id only logs.
   */
  function HandleApp(ch: Channel, msg: Json): (r: (Channel, seq<Effect>))
    requires Valid(ch)
    ensures Valid(r.0)
    ensures r.0.pending == ch.pending
            || (IntField(msg, "requestId").Some? && r.0.pending == ch.pending - {IntField(msg, "requestId").value})
    ensures r.0.(pending := ch.pending) == ch
    ensures (IntField(msg, "requestId").None? || IntField(msg, "requestId").value !in ch.pending) ==>
              r == (ch, [])
    ensures IntField(msg, "requestId").Some? && IntField(msg, "requestId").value in ch.pending ==>
              var id := IntField(msg, "requestId").value;
              var cb := ch.pending[id];
              && (StringField(msg, "type") == Some("OK") ==>
                    r.0.pending == ch.pending - {id}
                    && r.1 == [AppReply(cb, Ok(if "data" in msg.fields then msg.fields["data"] else JNull))])
              && (StringField(msg, "type") == Some("ERROR") && StringField(msg, "message").Some? ==>
                    r.0.pending == ch.pending - {id}
                    && r.1 == [AppReply(cb, Error(StringField(msg, "message").value))])
              && (StringField(msg, "type").Some? && StringField(msg, "type").value !in {"OK", "ERROR"} ==>
                    r.0.pending == ch.pending - {id} && r.1 == [])
              && (StringField(msg, "type").None?
                  || (StringField(msg, "type") == Some("ERROR") && StringField(msg, "message").None?) ==>
                    r == (ch, []))
  {
    match IntField(msg, "requestId")
    case None => (ch, [])
    case Some(id) =>
      if id !in ch.pending then (ch, [])
      else
        var cb := ch.pending[id];
        var retired := ch.(pending := ch.pending - {id});
        match StringField(msg, "type")
        case None => (ch, [])
        case Some(t) =>
          if t == "OK" then
            (retired, [AppReply(cb, Ok(Member(msg, "data").value))])
          else if t == "ERROR" then
            match StringField(msg, "message")
            case None => (ch, [])
            case Some(text) => (retired, [AppReply(cb, Error(text))])
          else (retired, [])
  }

  /** Run the handler a message was dispatched to. The connection handler only logs. */
  function RunHandler(ch: Channel, h: Handler, msg: Json): (r: (Channel, seq<Effect>))
    requires Valid(ch)
    ensures Valid(r.0)
    ensures r.0.(pending := ch.pending) == ch
  {
    match h
    case ConnectHandler => (ch, [])
    case HeartbeatHandler => (ch, HandleHeartbeat(ch, msg))
    case ReceiverHandler => HandleReceiver(ch, msg)
    case AppHandler => HandleApp(ch, msg)
  }

  /**
   * One incoming message: dispatched, then handled. A dropped message changes
   * nothing and has no effect; only the pending table can change.
   */
  function Receive(ch: Channel, m: CastMessage): (r: (Channel, seq<Effect>))
    requires Valid(ch)
    ensures Valid(r.0)
    ensures r.0.(pending := ch.pending) == ch
    ensures Dispatch(ch, m).Dropped? ==> r == (ch, [])
  {
    match Dispatch(ch, m)
    case Dropped(_) => (ch, [])
    case Deliver(h, json) => RunHandler(ch, h, json)
  }

  /**
   * Two channels facing each other: the PING one sends at start is answered
   * by exactly one PONG addressed back to it, and that PONG draws no reply.
   */
  lemma PingPong(a: Channel, b: Channel)
    requires Valid(a) && Valid(b)
    requires a.destination == b.name && b.destination == a.name
    requires a.handlers == Handlers(a.role) && b.handlers == Handlers(b.role)
    ensures var pong := SendMessage(b, HEARTBEAT_NS, TypeOnly("PONG"));
            && Receive(b, Start(a)[1]) == (b, [Send(pong)])
            && pong.destinationId == a.name && pong.sourceId == a.destination
            && Receive(a, pong) == (a, [])
  {
    NamespacesArePlain();
    var ping := Start(a)[1];
    assert HEARTBEAT_NS in b.handlers && b.handlers[HEARTBEAT_NS] == HeartbeatHandler;
    assert HEARTBEAT_NS in a.handlers && a.handlers[HEARTBEAT_NS] == HeartbeatHandler;
    PeerAccepts(a, b, HEARTBEAT_NS, TypeOnly("PING"));
    PeerAccepts(b, a, HEARTBEAT_NS, TypeOnly("PONG"));
  }

  // ---------------------------------------------------------------------------
  // Requests

  /**
   * A request: the message carries the current request id, the callback is
   * stored under it, and the counter moves on (`curr_request_id++`). The id
   * was not outstanding, so no earlier callback is overwritten. At `INT_MAX`
   * the increment would overflow a signed `int`, which C++ leaves undefined.
   */
  function Request(ch: Channel, ns: string, fields: map<string, Json>, cb: Callback)
    : (r: (Channel, CastMessage))
    requires Valid(ch) && ch.currRequestId < INT32_MAX
    ensures Valid(r.0)
    ensures ch.currRequestId !in ch.pending
    ensures r.0 == ch.(currRequestId := ch.currRequestId + 1,
                       pending := ch.pending[ch.currRequestId := cb])
    ensures |r.0.pending| == |ch.pending| + 1
    ensures r.1 == SendMessage(ch, ns, JObj(fields["requestId" := JInt(ch.currRequestId)]))
  {
    var id := ch.currRequestId;
    (ch.(currRequestId := id + 1, pending := ch.pending[id := cb]),
     SendMessage(ch, ns, JObj(fields["requestId" := JInt(id)])))
  }

  /** `load_app`: LAUNCH with the application id. */
  function LoadApp(ch: Channel, appId: string, cb: Callback): (r: (Channel, CastMessage))
    requires Valid(ch) && ch.currRequestId < INT32_MAX
    ensures Valid(r.0)
    ensures r.1.namespace == RECEIVER_NS
    ensures StringField(Body(r.1), "type") == Some("LAUNCH")
    ensures StringField(Body(r.1), "appId") == Some(appId)
    ensures Body(r.1).JObj? && "sessionId" !in Body(r.1).fields
    ensures IntField(Body(r.1), "requestId") == Some(ch.currRequestId)
    ensures r.0.pending == ch.pending[ch.currRequestId := cb] && ch.currRequestId !in ch.pending
  {
    Request(ch, RECEIVER_NS, map["type" := JStr("LAUNCH"), "appId" := JStr(appId)], cb)
  }

  /** `stop_app`: sends type LAUNCH (not STOP) with the session id. */
  function StopApp(ch: Channel, sessionId: string, cb: Callback): (r: (Channel, CastMessage))
    requires Valid(ch) && ch.currRequestId < INT32_MAX
    ensures Valid(r.0)
    ensures r.1.namespace == RECEIVER_NS
    ensures StringField(Body(r.1), "type") == Some("LAUNCH")
    ensures StringField(Body(r.1), "sessionId") == Some(sessionId)
    ensures Body(r.1).JObj? && "appId" !in Body(r.1).fields && |Body(r.1).fields| == 3
    ensures IntField(Body(r.1), "requestId") == Some(ch.currRequestId)
    ensures r.0.pending == ch.pending[ch.currRequestId := cb] && ch.currRequestId !in ch.pending
  {
    Request(ch, RECEIVER_NS, map["type" := JStr("LAUNCH"), "sessionId" := JStr(sessionId)], cb)
  }

  /**
   * `stop_app` as evidently intended: STOP with the session id, the request
   * the receiver namespace defines for ending an application's session.
   */
  function StopSession(ch: Channel, sessionId: string, cb: Callback): (r: (Channel, CastMessage))
    requires Valid(ch) && ch.currRequestId < INT32_MAX
    ensures Valid(r.0)
    ensures r.1.namespace == RECEIVER_NS
    ensures StringField(Body(r.1), "type") == Some("STOP")
    ensures StringField(Body(r.1), "sessionId") == Some(sessionId)
    ensures Body(r.1).JObj? && "appId" !in Body(r.1).fields && |Body(r.1).fields| == 3
    ensures IntField(Body(r.1), "requestId") == Some(ch.currRequestId)
    ensures r.0.pending == ch.pending[ch.currRequestId := cb] && ch.currRequestId !in ch.pending
  {
    Request(ch, RECEIVER_NS, map["type" := JStr("STOP"), "sessionId" := JStr(sessionId)], cb)
  }

  /**
   * As written, a stop request has the type of a launch and differs from the
   * intended stop request only in that type.
   */
  lemma StopAppSendsLaunch(ch: Channel, sessionId: string, appId: string, cb: Callback)
    requires Valid(ch) && ch.currRequestId < INT32_MAX
    ensures StringField(Body(StopApp(ch, sessionId, cb).1), "type")
            == StringField(Body(LoadApp(ch, appId, cb).1), "type")
    ensures StringField(Body(StopApp(ch, sessionId, cb).1), "type")
            != StringField(Body(StopSession(ch, sessionId, cb).1), "type")
    ensures Body(StopApp(ch, sessionId, cb).1).fields
            == Body(StopSession(ch, sessionId, cb).1).fields["type" := JStr("LAUNCH")]
  {
    var fields := Body(StopSession(ch, sessionId, cb).1).fields;
    assert Body(StopApp(ch, sessionId, cb).1).fields == fields["type" := JStr("LAUNCH")];
  }

  /** `get_status`: GET_STATUS. */
  function GetStatus(ch: Channel, cb: Callback): (r: (Channel, CastMessage))
    requires Valid(ch) && ch.currRequestId < INT32_MAX
    ensures Valid(r.0)
    ensures r.1.namespace == RECEIVER_NS
    ensures StringField(Body(r.1), "type") == Some("GET_STATUS")
    ensures IntField(Body(r.1), "requestId") == Some(ch.currRequestId)
    ensures r.0.pending == ch.pending[ch.currRequestId := cb] && ch.currRequestId !in ch.pending
  {
    Request(ch, RECEIVER_NS, map["type" := JStr("GET_STATUS")], cb)
  }

  /** The `"ws://" + endpoint` address list, in the given (set iteration) order. */
  function Addresses(endpoints: seq<Endpoint>): (r: seq<Json>)
    ensures |r| == |endpoints|
    ensures forall i :: 0 <= i < |endpoints| ==> r[i] == JStr("ws://" + EndpointText(endpoints[i]))
  {
    seq(|endpoints|, i requires 0 <= i < |endpoints| => JStr("ws://" + EndpointText(endpoints[i])))
  }

  /**
   * Each address reads back as the endpoint it came from: after `ws://` the
   * port follows the last colon; an IPv4 endpoint parses back whole; an IPv6
   * host is the bracketed text of its address.
   */
  lemma AddressesReadBack(endpoints: seq<Endpoint>, i: nat)
    requires i < |endpoints|
    ensures var a := Addresses(endpoints)[i];
            && a.JStr? && |a.s| > 5 && a.s[..5] == "ws://"
            && ReadPort(a.s[5..]) == Some(endpoints[i].port)
            && (endpoints[i].address.V4? ==> ReadV4(a.s[5..]) == Some(endpoints[i]))
            && (endpoints[i].address.V6? ==>
                  a.s[5] == '[' && Field(a.s[6..], ']').0 == V6Text(endpoints[i].address.v6))
  {
    var e := endpoints[i];
    var t := EndpointText(e);
    assert Addresses(endpoints)[i].s == "ws://" + t;
    assert ("ws://" + t)[5..] == t;
    assert ("ws://" + t)[6..] == t[1..];
    PortReadBack(e);
    if e.address.V4? {
      V4ReadBack(e);
    } else {
      V6HostReadBack(e);
    }
  }

  /** `start_stream`: START_STREAM with the device's addresses and name. */
  function StartStream(ch: Channel, endpoints: seq<Endpoint>, deviceName: string, cb: Callback)
    : (r: (Channel, CastMessage))
    requires Valid(ch) && ch.currRequestId < INT32_MAX
    ensures Valid(r.0)
    ensures r.1.namespace == STREAM_APP_NS
    ensures StringField(Body(r.1), "type") == Some("START_STREAM")
    ensures StringField(Body(r.1), "deviceName") == Some(deviceName)
    ensures Body(r.1).JObj? && "addresses" in Body(r.1).fields
    ensures Body(r.1).fields["addresses"] == JArr(Addresses(endpoints))
    ensures IntField(Body(r.1), "requestId") == Some(ch.currRequestId)
    ensures r.0.pending == ch.pending[ch.currRequestId := cb] && ch.currRequestId !in ch.pending
  {
    Request(ch, STREAM_APP_NS,
            map["type" := JStr("START_STREAM"), "addresses" := JArr(Addresses(endpoints)),
                "deviceName" := JStr(deviceName)], cb)
  }

  /** Outstanding requests have pairwise distinct ids; consecutive requests get consecutive ids. */
  lemma RequestIdsAdvance(ch: Channel, appId: string, cb1: Callback, cb2: Callback)
    requires Valid(ch) && ch.currRequestId + 1 < INT32_MAX
    ensures var (ch1, m1) := LoadApp(ch, appId, cb1);
            var (ch2, m2) := GetStatus(ch1, cb2);
            && IntField(Body(m2), "requestId")
               == Some(IntField(Body(m1), "requestId").value + 1)
            && ch2.pending == ch.pending[ch.currRequestId := cb1][ch.currRequestId + 1 := cb2]
            && |ch2.pending| == |ch.pending| + 2
  {
  }

  /** The peer's answer to a request: the same request id, echoed back. */
  function Answer(ch: Channel, ns: string, id: int, fields: map<string, Json>): CastMessage {
    JsonMessage(ch.destination, ch.name, ns, JObj(fields["requestId" := JInt(id)]))
  }

  /**
   * A receiver-namespace request and its answer: the answer calls the
   * request's callback exactly once and restores the pending table; the same
   * answer arriving again calls nothing.
   */
  lemma ReceiverRoundTrip(ch: Channel, cb: Callback, fields: map<string, Json>)
    requires Valid(ch) && ch.currRequestId < INT32_MAX
    requires ch.handlers == Handlers(Main)
    ensures var (ch1, _) := GetStatus(ch, cb);
            var answer := Answer(ch, RECEIVER_NS, ch.currRequestId, fields);
            var status := JObj(fields["requestId" := JInt(ch.currRequestId)]);
            var (ch2, effects) := Receive(ch1, answer);
            && effects == [StatusReply(cb, status)]
            && ch2.pending == ch.pending
            && Receive(ch2, answer) == (ch2, [])
  {
    NamespacesArePlain();
    var (ch1, _) := GetStatus(ch, cb);
    var status := JObj(fields["requestId" := JInt(ch.currRequestId)]);
    assert IntField(status, "requestId") == Some(ch.currRequestId);
    assert ch1.pending - {ch.currRequestId} == ch.pending;
  }

  /**
   * A start-stream request and its OK answer: the callback receives the
   * answer's `data`, the request is retired, and a repeated answer calls nothing.
   */
  lemma StreamRoundTrip(ch: Channel, endpoints: seq<Endpoint>, deviceName: string, cb: Callback,
                        data: Json)
    requires Valid(ch) && ch.currRequestId < INT32_MAX
    requires ch.handlers == Handlers(App)
    ensures var (ch1, _) := StartStream(ch, endpoints, deviceName, cb);
            var answer := Answer(ch, STREAM_APP_NS, ch.currRequestId,
                                 map["type" := JStr("OK"), "data" := data]);
            var (ch2, effects) := Receive(ch1, answer);
            && effects == [AppReply(cb, Ok(data))]
            && ch2.pending == ch.pending
            && Receive(ch2, answer) == (ch2, [])
  {
    NamespacesArePlain();
    var (ch1, _) := StartStream(ch, endpoints, deviceName, cb);
    var body := JObj(map["type" := JStr("OK"), "data" := data]["requestId" := JInt(ch.currRequestId)]);
    assert IntField(body, "requestId") == Some(ch.currRequestId);
    assert StringField(body, "type") == Some("OK");
    assert ch1.pending - {ch.currRequestId} == ch.pending;
  }

  /**
   * An answer whose `requestId` is a 64-bit integer agreeing with a pending id
   * modulo 2^32 is taken for that request: `get<int>` narrows it first.
   */
  lemma WideIdAnswersRequest(ch: Channel, id: int, wide: int, fields: map<string, Json>)
    requires Valid(ch) && id in ch.pending
    requires INT64_MIN <= wide <= UINT64_MAX && (wide - id) % 0x1_0000_0000 == 0
    ensures var msg := JObj(fields["requestId" := JInt(wide)]);
            HandleReceiver(ch, msg) == (ch.(pending := ch.pending - {id}), [StatusReply(ch.pending[id], msg)])
  {
    NarrowAliases(wide, id);
  }
}
