/**
 * The CASTV2 message record (cast_channel::CastMessage) and the namespaces the
 * program uses. Protobuf serialization is not modelled; the UTF-8 payload is
 * represented by the JSON value it encodes, or kept as text that is not JSON.
 */
module CastMessages {
  import opened Wrappers
  import opened Json

  const CONNECTION_NS: string := "urn:x-cast:com.google.cast.tp.connection"
  const HEARTBEAT_NS: string := "urn:x-cast:com.google.cast.tp.heartbeat"
  const RECEIVER_NS: string := "urn:x-cast:com.google.cast.receiver"
  const STREAM_APP_NS: string := "urn:x-cast:com.p2004a.chromecast-receiver.wsapp"

  /** The position of the first NUL at or after `i`, or the end of `s`. */
  function NulFrom(s: string, i: nat): (n: nat)
    requires i <= |s|
    ensures i <= n <= |s|
    ensures n < |s| ==> s[n] == '\0'
    ensures forall k :: i <= k < n ==> s[k] != '\0'
    decreases |s| - i
  {
    if i == |s| || s[i] == '\0' then i else NulFrom(s, i + 1)
  }

  /**
   * The text a C string pointing at `s` denotes (`std::string(s.c_str())`):
   * `s` up to, not including, its first NUL character.
   */
  function CString(s: string): (r: string)
    ensures '\0' !in r
    ensures r <= s
    ensures |r| < |s| ==> s[|r|] == '\0'
    ensures '\0' !in s ==> r == s
  {
    if '\0' in s then s[..NulFrom(s, 0)] else s
  }

  /** A NUL cuts the C string there, whatever follows it. */
  lemma CStringCut(s: string, t: string)
    requires '\0' !in s
    ensures CString(s + ['\0'] + t) == s
  {
    var x := s + ['\0'] + t;
    assert x[|s|] == '\0';
    assert x[..|s|] == s;
  }

  /** The program's namespaces hold no NUL, so each is its own C string. */
  lemma NamespacesArePlain()
    ensures CString(CONNECTION_NS) == CONNECTION_NS && CString(HEARTBEAT_NS) == HEARTBEAT_NS
    ensures CString(RECEIVER_NS) == RECEIVER_NS && CString(STREAM_APP_NS) == STREAM_APP_NS
  {
    NoNulIn(CONNECTION_NS);
    NoNulIn(HEARTBEAT_NS);
    NoNulIn(RECEIVER_NS);
    NoNulIn(STREAM_APP_NS);
  }

  lemma NoNulIn(ns: string)
    requires ns in {CONNECTION_NS, HEARTBEAT_NS, RECEIVER_NS, STREAM_APP_NS}
    ensures CString(ns) == ns
  {
    assert '\0' !in ns;
  }

  /** The broadcast destination id. */
  const BROADCAST: string := "*"

  datatype PayloadType = STRING | BINARY

  /** A `payload_utf8` field: the text of a JSON value, or text that does not parse. */
  datatype Utf8 = JsonText(value: Json) | Malformed(text: string)

  datatype CastMessage = CastMessage(sourceId: string, destinationId: string, namespace: string,
                                     payloadType: PayloadType, payloadUtf8: Option<Utf8>)

  /** `nlohmann::json::parse`, failing (`None`) on text that is not JSON. */
  function Parse(u: Utf8): Option<Json> {
    match u
    case JsonText(v) => Some(v)
    case Malformed(_) => None
  }

  /** A STRING message carrying `payload` as JSON text. */
  function JsonMessage(source: string, destination: string, ns: string, payload: Json): CastMessage {
    CastMessage(source, destination, ns, STRING, Some(JsonText(payload)))
  }

  /** The JSON value a message carries; null when it carries none. */
  function Body(m: CastMessage): Json {
    match m.payloadUtf8
    case Some(JsonText(v)) => v
    case _ => JNull
  }
}
