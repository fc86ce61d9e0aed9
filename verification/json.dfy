/**
 * JSON values as the program builds and inspects them (nlohmann::json 2.x in
 * the C++ part, object literals in the receiver). Text serialization and
 * parsing are not modelled: a message's text is represented by the value it
 * encodes. A JSON number is held as nlohmann holds it: an integer literal as
 * an integer (`number_integer` or `number_unsigned`), any other number as a
 * double (`number_float`), whose value `JFloat` carries exactly.
 */
module Json {
  import opened Wrappers

  datatype Json =
    | JNull
    | JBool(b: bool)
    | JInt(i: int)
    | JFloat(f: real)
    | JStr(s: string)
    | JArr(items: seq<Json>)
    | JObj(fields: map<string, Json>)

  const INT32_MIN: int := -0x8000_0000
  const INT32_MAX: int := 0x7fff_ffff
  const INT64_MIN: int := -0x8000_0000_0000_0000
  const UINT64_MAX: int := 0xffff_ffff_ffff_ffff

  predicate IsInt32(n: int) {
    INT32_MIN <= n <= INT32_MAX
  }

  /** `static_cast<int>` of a 64-bit integer: two's-complement wrap-around to 32 bits. */
  function Narrow32(i: int): (n: int)
    ensures IsInt32(n)
    ensures (n - i) % 0x1_0000_0000 == 0
    ensures IsInt32(i) ==> n == i
  {
    (i - INT32_MIN) % 0x1_0000_0000 + INT32_MIN
  }

  /** `static_cast<int>` of a double in range: truncation toward zero. */
  function Truncate(x: real): (n: int)
    ensures 0.0 <= x ==> n as real <= x < n as real + 1.0
    ensures x < 0.0 ==> n as real - 1.0 < x <= n as real
  {
    if 0.0 <= x then x.Floor else -((-x).Floor)
  }

  /**
   * `get<int>()` (also the implicit conversion to `int`): an integer is
   * narrowed, a double truncated; any other value throws `std::domain_error`
   * (`None`). An integer beyond 64 bits is never stored as an integer, and a
   * double outside the `int` range has no defined conversion; both are `None`.
   */
  function ToInt(v: Json): (r: Option<int>)
    ensures r.Some? ==> IsInt32(r.value)
    ensures r.Some? ==> v.JInt? || v.JFloat?
    ensures v.JInt? ==> (r.Some? <==> INT64_MIN <= v.i <= UINT64_MAX)
    ensures v.JInt? && r.Some? ==> (r.value - v.i) % 0x1_0000_0000 == 0
    ensures v.JFloat? ==> (r.Some? <==> (INT32_MIN - 1) as real < v.f < (INT32_MAX + 1) as real)
    ensures v.JFloat? && r.Some? ==> -1.0 < v.f - r.value as real < 1.0
  {
    match v
    case JInt(i) => if INT64_MIN <= i <= UINT64_MAX then Some(Narrow32(i)) else None
    case JFloat(f) =>
      if (INT32_MIN - 1) as real < f < (INT32_MAX + 1) as real then Some(Truncate(f)) else None
    case _ => None
  }

  /**
   * `msg["key"]` on a non-const value: an object yields the member, a missing
   * key reads as null (it is inserted as null), and null is first turned into
   * an empty object; on any other value `[]` throws (`None`).
   */
  function Member(msg: Json, key: string): Option<Json> {
    if msg.JObj? then Some(if key in msg.fields then msg.fields[key] else JNull)
    else if msg.JNull? then Some(JNull)
    else None
  }

  /**
   * `msg["key"]` converted to a string: the conversion succeeds exactly when
   * indexing succeeds and yields a string, and then it is that string.
   */
  function StringField(msg: Json, key: string): (r: Option<string>)
    ensures r.Some? <==> Member(msg, key).Some? && Member(msg, key).value.JStr?
    ensures r.Some? ==> Member(msg, key) == Some(JStr(r.value))
  {
    if msg.JObj? && key in msg.fields && msg.fields[key].JStr? then Some(msg.fields[key].s)
    else None
  }

  /**
   * `msg["key"]` converted to an int: it fails unless `msg` is an object with
   * a numeric member under `key`; an int-sized integer comes back unchanged,
   * a wider one wraps around modulo 2^32, a double is truncated.
   */
  function IntField(msg: Json, key: string): (r: Option<int>)
    ensures r.Some? ==> msg.JObj? && key in msg.fields
    ensures r.Some? <==> Member(msg, key).Some? && ToInt(Member(msg, key).value).Some?
    ensures r.Some? ==> IsInt32(r.value)
    ensures msg.JObj? && key in msg.fields && msg.fields[key].JInt? && IsInt32(msg.fields[key].i) ==>
              r == Some(msg.fields[key].i)
    ensures r.Some? && msg.fields[key].JInt? ==> (r.value - msg.fields[key].i) % 0x1_0000_0000 == 0
    ensures r.Some? && msg.fields[key].JFloat? ==> -1.0 < msg.fields[key].f - r.value as real < 1.0
  {
    if msg.JObj? && key in msg.fields then ToInt(msg.fields[key]) else None
  }

  /**
   * Two numbers that agree modulo 2^32 convert to the same int: an answer may
   * carry a request id as a wider integer and still name the same request.
   */
  lemma {:induction false} NarrowAliases(i: int, j: int)
    requires (i - j) % 0x1_0000_0000 == 0
    ensures Narrow32(i) == Narrow32(j)
  {
    var k := (i - j) / 0x1_0000_0000;
    assert i - INT32_MIN == (j - INT32_MIN) + k * 0x1_0000_0000;
    ModuloShift(j - INT32_MIN, k);
  }

  lemma {:induction false} ModuloShift(a: int, k: int)
    ensures (a + k * 0x1_0000_0000) % 0x1_0000_0000 == a % 0x1_0000_0000
  {
    var m := 0x1_0000_0000;
    var q := a / m;
    var r := a % m;
    assert a + k * m == (q + k) * m + r;
  }

  /** The object `{"type": t}` used by the connection and heartbeat namespaces. */
  function TypeOnly(t: string): Json {
    JObj(map["type" := JStr(t)])
  }
}
