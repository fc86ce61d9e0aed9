/**
 * TCP endpoints as boost::asio keeps and prints them. An address comes from
 * the text Avahi prints for a resolved service, parsed by
 * `address::from_string`: IPv4, or IPv6 without a scope id (Avahi's text
 * carries none).
 */
module Endpoints {
  import opened Wrappers

  type IPv4 = x: nat | x < 0x1_0000_0000
  /** An IPv6 address as the 128-bit number its network-order bytes spell. */
  type IPv6 = x: nat | x < 0x1_0000_0000_0000_0000_0000_0000_0000_0000
  type Port = x: nat | x < 0x1_0000
  /** One 16-bit word of an IPv6 address. */
  type Word = x: nat | x < 0x1_0000

  datatype Address = V4(v4: IPv4) | V6(v6: IPv6)

  datatype Endpoint = Endpoint(address: Address, port: Port)

  // Order

  /**
   * `ip::address::operator<`: every IPv4 address before every IPv6 one; within
   * a family, `memcmp` of the network-order bytes, which is numeric order.
   */
  predicate AddressBefore(a: Address, b: Address) {
    match (a, b)
    case (V4(x), V4(y)) => x < y
    case (V4(_), V6(_)) => true
    case (V6(_), V4(_)) => false
    case (V6(x), V6(y)) => x < y
  }

  /** The strict order of `std::set<tcp::endpoint>`: address, then port. */
  predicate Before(a: Endpoint, b: Endpoint) {
    AddressBefore(a.address, b.address) || (a.address == b.address && a.port < b.port)
  }

  lemma BeforeIsStrictTotalOrder(a: Endpoint, b: Endpoint, c: Endpoint)
    ensures !Before(a, a)
    ensures Before(a, b) && Before(b, c) ==> Before(a, c)
    ensures a != b ==> Before(a, b) || Before(b, a)
  {
  }

  /** `e` is the first element of the ordered set `s`, i.e. `*s.begin()`. */
  predicate IsFirst(e: Endpoint, s: set<Endpoint>) {
    e in s && forall x :: x in s && x != e ==> Before(e, x)
  }

  lemma {:induction false} FirstExists(s: set<Endpoint>)
    requires s != {}
    ensures exists e :: IsFirst(e, s)
    decreases |s|
  {
    var x :| x in s;
    if s - {x} == {} {
      assert s == {x};
      assert IsFirst(x, s);
    } else {
      FirstExists(s - {x});
      var m :| IsFirst(m, s - {x});
      if Before(x, m) {
        forall y | y in s && y != x ensures Before(x, y) {
          if y != m {
            assert y in s - {x};
            BeforeIsStrictTotalOrder(x, m, y);
          }
        }
        assert IsFirst(x, s);
      } else {
        BeforeIsStrictTotalOrder(x, m, x);
        assert IsFirst(m, s);
      }
    }
  }

  lemma FirstUnique(s: set<Endpoint>, a: Endpoint, b: Endpoint)
    requires IsFirst(a, s) && IsFirst(b, s)
    ensures a == b
  {
  }

  /** `*s.begin()` on a non-empty ordered set. */
  function First(s: set<Endpoint>): (e: Endpoint)
    requires s != {}
    ensures IsFirst(e, s)
  {
    FirstExists(s);
    var e :| IsFirst(e, s);
    e
  }

  /** A device reachable over IPv4 is always contacted over IPv4. */
  lemma FirstPrefersIPv4(s: set<Endpoint>, e: Endpoint)
    requires e in s && e.address.V4?
    ensures First(s).address.V4?
    ensures First(s).address.v4 <= e.address.v4
  {
  }

  // Numerals

  function DigitChar(d: nat): (c: char)
    requires d < 16
  {
    if d < 10 then ('0' as int + d) as char else ('a' as int + d - 10) as char
  }

  /** A lower-case hexadecimal digit character. */
  predicate IsHexChar(c: char) {
    '0' <= c <= '9' || 'a' <= c <= 'f'
  }

  function DigitValue(c: char): (d: nat)
    requires IsHexChar(c)
    ensures d < 16 && DigitChar(d) == c
  {
    if c <= '9' then c as int - '0' as int else c as int - 'a' as int + 10
  }

  /** The two bases the program prints in. */
  type Base = b: nat | b == 10 || b == 16 witness 10

  // Division and multiplication by the base, by cases so that each stays linear.

  function Quot(n: nat, b: Base): nat {
    if b == 10 then n / 10 else n / 16
  }

  function Rem(n: nat, b: Base): (r: nat)
    ensures r < b && n == Times(Quot(n, b), b) + r
  {
    if b == 10 then n % 10 else n % 16
  }

  function Times(x: nat, b: Base): nat {
    if b == 10 then x * 10 else x * 16
  }

  /** A digit of base `b`. */
  predicate IsDigit(c: char, b: Base) {
    IsHexChar(c) && DigitValue(c) < b
  }

  predicate AllDigits(s: string, b: Base) {
    forall i :: 0 <= i < |s| ==> IsDigit(s[i], b)
  }

  /**
   * `n` in base `b` with lower-case digits and no leading zero, as `<<` prints
   * a number (base 10) and `%x` a word (base 16).
   */
  function Numeral(n: nat, b: Base): (s: string)
    ensures 1 <= |s|
    ensures AllDigits(s, b)
    ensures n == 0 <==> s == "0"
    ensures n > 0 ==> s[0] != '0'
    decreases n
  {
    if n < b then [DigitChar(n)] else Numeral(Quot(n, b), b) + [DigitChar(Rem(n, b))]
  }

  /** Reads the digits of `s` in base `b`, most significant first. */
  function NumeralValue(s: string, b: Base): nat
    requires AllDigits(s, b)
    decreases |s|
  {
    if s == [] then 0
    else
      DigitsSplit(s, b);
      Times(NumeralValue(s[..|s| - 1], b), b) + DigitValue(s[|s| - 1])
  }

  lemma DigitsSplit(s: string, b: Base)
    requires AllDigits(s, b) && s != []
    ensures AllDigits(s[..|s| - 1], b) && IsDigit(s[|s| - 1], b)
  {
    var init := s[..|s| - 1];
    forall i | 0 <= i < |init| ensures IsDigit(init[i], b) {
      assert init[i] == s[i];
    }
  }

  /** Reading a printed number gives the number back. */
  lemma {:induction false} NumeralRoundTrip(n: nat, b: Base)
    ensures NumeralValue(Numeral(n, b), b) == n
    decreases n
  {
    var s := Numeral(n, b);
    if n >= b {
      NumeralRoundTrip(Quot(n, b), b);
      assert s[..|s| - 1] == Numeral(Quot(n, b), b);
    }
  }

  function Decimal(n: nat): (s: string)
    ensures forall c :: c in s ==> '0' <= c <= '9'
    ensures IsNumeral(s)
    ensures NumeralValue(s, 10) == n
  {
    NumeralRoundTrip(n, 10);
    Numeral(n, 10)
  }

  function Hex(n: nat): (s: string)
    ensures forall c :: c in s ==> IsHexChar(c)
    ensures NumeralValue(s, 16) == n
  {
    NumeralRoundTrip(n, 16);
    Numeral(n, 16)
  }

  // IPv4 text

  /** The dotted quad `a.b.c.d` of `address_v4::to_string`. */
  function Dotted(a: IPv4): (s: string)
    ensures forall c :: c in s ==> '0' <= c <= '9' || c == '.'
  {
    Decimal(a / 0x100_0000) + "." + Decimal(a / 0x1_0000 % 0x100) + "."
    + Decimal(a / 0x100 % 0x100) + "." + Decimal(a % 0x100)
  }

  // IPv6 text: glibc's `inet_ntop` for AF_INET6, which `address_v6::to_string` calls

  /** The eight 16-bit words, most significant first. */
  function Words(a: IPv6): (w: seq<Word>)
    ensures |w| == 8
  {
    [a / 0x1_0000_0000_0000_0000_0000_0000_0000 % 0x1_0000,
     a / 0x1_0000_0000_0000_0000_0000_0000 % 0x1_0000,
     a / 0x1_0000_0000_0000_0000_0000 % 0x1_0000,
     a / 0x1_0000_0000_0000_0000 % 0x1_0000,
     a / 0x1_0000_0000_0000 % 0x1_0000,
     a / 0x1_0000_0000 % 0x1_0000,
     a / 0x1_0000 % 0x1_0000,
     a % 0x1_0000]
  }

  /** A run of zero words `w[base..base+len]`, or none. */
  datatype Span = NoSpan | Span(base: nat, len: nat)

  /** `w[b..b+l]` is a maximal run of zero words. */
  predicate ZeroRun(w: seq<Word>, b: nat, l: nat) {
    1 <= l && b + l <= |w| && (forall k :: b <= k < b + l ==> w[k] == 0)
    && (b == 0 || w[b - 1] != 0) && (b + l == |w| || w[b + l] != 0)
  }

  /** `r` is the longest maximal zero run, the first one among equally long runs. */
  ghost predicate Longest(w: seq<Word>, r: Span) {
    && (r.NoSpan? ==> forall b: nat, l: nat :: !ZeroRun(w, b, l))
    && (r.Span? ==>
          && ZeroRun(w, r.base, r.len)
          && forall b: nat, l: nat :: ZeroRun(w, b, l) ==> l < r.len || (l == r.len && r.base <= b))
  }

  /** `cur` is the zero run that ends just before `i`, if `w[i-1]` is zero. */
  ghost predicate CurrentRun(w: seq<Word>, i: nat, cur: Span)
    requires i <= |w|
  {
    if i > 0 && w[i - 1] == 0 then
      cur.Span? && cur.base + cur.len == i && 1 <= cur.len
      && (forall k :: cur.base <= k < i ==> w[k] == 0) && (cur.base == 0 || w[cur.base - 1] != 0)
    else cur.NoSpan?
  }

  /** `best` is the longest of the zero runs that end before `w[i-1]`. */
  ghost predicate BestSoFar(w: seq<Word>, i: nat, best: Span) {
    && (best.NoSpan? ==> forall b: nat, l: nat :: ZeroRun(w, b, l) ==> b + l >= i)
    && (best.Span? ==>
          && ZeroRun(w, best.base, best.len)
          && best.base + best.len < i
          && forall b: nat, l: nat :: ZeroRun(w, b, l) && b + l < i ==>
               l < best.len || (l == best.len && best.base <= b))
  }

  /** The run `inet_ntop` keeps when the current one ends: a longer one replaces it. */
  function Keep(cur: Span, best: Span): Span {
    if cur.Span? && (best.NoSpan? || cur.len > best.len) then cur else best
  }

  /** A maximal zero run ending at `i` is the current run. */
  lemma RunEndingAt(w: seq<Word>, i: nat, cur: Span, b: nat, l: nat)
    requires i <= |w| && CurrentRun(w, i, cur)
    requires ZeroRun(w, b, l) && b + l == i
    ensures cur == Span(b, l)
  {
    assert w[i - 1] == 0;
  }

  /** A zero word extends the current run; no run ends at it. */
  lemma ExtendRun(w: seq<Word>, i: nat, cur: Span, best: Span)
    requires i < |w| && w[i] == 0 && CurrentRun(w, i, cur) && BestSoFar(w, i, best)
    ensures CurrentRun(w, i + 1, if cur.NoSpan? then Span(i, 1) else Span(cur.base, cur.len + 1))
    ensures BestSoFar(w, i + 1, best)
  {
    assert i > 0 && w[i - 1] == 0 ==> cur.Span?;
  }

  /** A non-zero word ends the current run, which replaces the best one if it is longer. */
  lemma CloseRun(w: seq<Word>, i: nat, cur: Span, best: Span)
    requires i < |w| && w[i] != 0 && CurrentRun(w, i, cur) && BestSoFar(w, i, best)
    ensures CurrentRun(w, i + 1, NoSpan)
    ensures BestSoFar(w, i + 1, Keep(cur, best))
  {
    forall b: nat, l: nat | ZeroRun(w, b, l) && b + l == i ensures cur == Span(b, l) {
      RunEndingAt(w, i, cur, b, l);
    }
    if cur.Span? {
      assert ZeroRun(w, cur.base, cur.len);
    }
  }

  /** At the end of the words the current run ends too. */
  lemma FinishRuns(w: seq<Word>, cur: Span, best: Span)
    requires CurrentRun(w, |w|, cur) && BestSoFar(w, |w|, best)
    ensures Longest(w, Keep(cur, best))
  {
    forall b: nat, l: nat | ZeroRun(w, b, l) && b + l == |w| ensures cur == Span(b, l) {
      RunEndingAt(w, |w|, cur, b, l);
    }
    if cur.Span? {
      assert ZeroRun(w, cur.base, cur.len);
    }
  }

  /** The scan of `inet_ntop` for the longest run of zero words, from word `i`. */
  function ScanRuns(w: seq<Word>, i: nat, cur: Span, best: Span): (r: Span)
    requires i <= |w| && CurrentRun(w, i, cur) && BestSoFar(w, i, best)
    ensures Longest(w, r)
    decreases |w| - i
  {
    if i == |w| then
      FinishRuns(w, cur, best);
      Keep(cur, best)
    else if w[i] == 0 then
      ExtendRun(w, i, cur, best);
      ScanRuns(w, i + 1, if cur.NoSpan? then Span(i, 1) else Span(cur.base, cur.len + 1), best)
    else
      CloseRun(w, i, cur, best);
      ScanRuns(w, i + 1, NoSpan, Keep(cur, best))
  }

  /** The run printed as `::`: the longest zero run, provided it spans two words or more. */
  function BestRun(w: seq<Word>): (r: Span)
    ensures r.Span? ==> 2 <= r.len && Longest(w, r)
    ensures r.NoSpan? ==> forall b: nat, l: nat :: ZeroRun(w, b, l) ==> l < 2
  {
    var s := ScanRuns(w, 0, NoSpan, NoSpan);
    if s.Span? && s.len < 2 then NoSpan else s
  }

  /** `inet_ntop` prints the last two words as an IPv4 address: `::a.b.c.d` and `::ffff:a.b.c.d`. */
  predicate EmbedsIPv4(w: seq<Word>, best: Span)
    requires |w| == 8
  {
    best.Span? && best.base == 0 && (best.len == 6 || (best.len == 5 && w[5] == 0xffff))
  }

  predicate IsV6Char(c: char) {
    IsHexChar(c) || c == ':' || c == '.'
  }

  predicate AllV6Chars(s: string) {
    forall c :: c in s ==> IsV6Char(c)
  }

  lemma V6CharsConcat(a: string, b: string)
    requires AllV6Chars(a) && AllV6Chars(b)
    ensures AllV6Chars(a + b)
  {
  }

  /** The formatting loop of `inet_ntop` from word `i` on. */
  function FormatFrom(w: seq<Word>, best: Span, i: nat): (s: string)
    requires |w| == 8 && i <= 8
    decreases 8 - i
  {
    if i == 8 then ""
    else if best.Span? && best.base <= i < best.base + best.len then
      (if i == best.base then ":" else "") + FormatFrom(w, best, i + 1)
    else
      (if i != 0 then ":" else "")
      + (if i == 6 && EmbedsIPv4(w, best) then Dotted(w[6] as int * 0x1_0000 + w[7] as int)
         else Hex(w[i]) + FormatFrom(w, best, i + 1))
  }

  /** The formatted text holds hex digits, colons and the dots of an embedded IPv4 address. */
  lemma {:induction false} FormatChars(w: seq<Word>, best: Span, i: nat)
    requires |w| == 8 && i <= 8
    ensures AllV6Chars(FormatFrom(w, best, i))
    decreases 8 - i
  {
    if i < 8 {
      FormatChars(w, best, i + 1);
      var sep := if i != 0 then ":" else "";
      if best.Span? && best.base <= i < best.base + best.len {
        V6CharsConcat(if i == best.base then ":" else "", FormatFrom(w, best, i + 1));
      } else if i == 6 && EmbedsIPv4(w, best) {
        V6CharsConcat(sep, Dotted(w[6] as int * 0x1_0000 + w[7] as int));
      } else {
        V6CharsConcat(Hex(w[i]), FormatFrom(w, best, i + 1));
        V6CharsConcat(sep, Hex(w[i]) + FormatFrom(w, best, i + 1));
      }
    }
  }

  /** `inet_ntop` on the eight words: the formatting loop, then a colon after a trailing run. */
  function WordsText(w: seq<Word>): (s: string)
    requires |w| == 8
    ensures AllV6Chars(s)
  {
    var best := BestRun(w);
    FormatChars(w, best, 0);
    V6CharsConcat(FormatFrom(w, best, 0), if best.Span? && best.base + best.len == 8 then ":" else "");
    FormatFrom(w, best, 0) + (if best.Span? && best.base + best.len == 8 then ":" else "")
  }

  /** `address_v6::to_string`. */
  function V6Text(a: IPv6): (s: string)
    ensures AllV6Chars(s)
  {
    WordsText(Words(a))
  }

  /** Words inside the compressed run print nothing. */
  lemma {:induction false} SkipRun(w: seq<Word>, best: Span, i: nat, j: nat)
    requires |w| == 8 && best.Span? && best.base < i <= j <= best.base + best.len && j <= 8
    ensures FormatFrom(w, best, i) == FormatFrom(w, best, j)
    decreases j - i
  {
    if i < j {
      SkipRun(w, best, i + 1, j);
    }
  }

  /** `::a.b.c.d`: six zero words, then an IPv4 address. */
  lemma CompatibleText(w: seq<Word>)
    requires |w| == 8 && BestRun(w) == Span(0, 6)
    ensures WordsText(w) == "::" + Dotted(w[6] as int * 0x1_0000 + w[7] as int)
  {
    var best := BestRun(w);
    var quad := Dotted(w[6] as int * 0x1_0000 + w[7] as int);
    assert EmbedsIPv4(w, best);
    SkipRun(w, best, 1, 6);
    assert FormatFrom(w, best, 0) == ":" + (":" + quad);
    ColonsShape(quad);
  }

  lemma ColonsShape(x: string)
    ensures ":" + (":" + x) + "" == "::" + x
  {
  }

  lemma HexFFFF()
    ensures Hex(0xffff) == "ffff"
  {
    assert Numeral(0xfff, 16) == "fff";
  }

  /** `::ffff:a.b.c.d`: an IPv4-mapped address. */
  lemma MappedText(w: seq<Word>)
    requires |w| == 8 && BestRun(w) == Span(0, 5) && w[5] == 0xffff
    ensures WordsText(w) == "::ffff:" + Dotted(w[6] as int * 0x1_0000 + w[7] as int)
  {
    var best := BestRun(w);
    var quad := Dotted(w[6] as int * 0x1_0000 + w[7] as int);
    assert EmbedsIPv4(w, best);
    SkipRun(w, best, 1, 5);
    HexFFFF();
    assert FormatFrom(w, best, 5) == ":" + "ffff" + FormatFrom(w, best, 6);
    assert FormatFrom(w, best, 0) == ":" + (":" + "ffff" + (":" + quad));
    MappedShape(quad);
  }

  lemma MappedShape(q: string)
    ensures ":" + (":" + "ffff" + (":" + q)) + "" == "::ffff:" + q
  {
  }

  /** The unspecified address `::`. */
  lemma AllZeroText(w: seq<Word>)
    requires |w| == 8 && BestRun(w) == Span(0, 8)
    ensures WordsText(w) == "::"
  {
    SkipRun(w, BestRun(w), 1, 8);
  }

  /** `::x`, as the loopback address `::1` prints. */
  lemma LeadingRunText(w: seq<Word>)
    requires |w| == 8 && BestRun(w) == Span(0, 7)
    ensures WordsText(w) == "::" + Hex(w[7])
  {
    var best := BestRun(w);
    SkipRun(w, best, 1, 7);
    assert FormatFrom(w, best, 0) == ":" + (":" + Hex(w[7]));
    ColonsShape(Hex(w[7]));
  }

  /** `x::y`, as a link-local address like `fe80::1` prints. */
  lemma InteriorRunText(w: seq<Word>)
    requires |w| == 8 && BestRun(w) == Span(1, 6)
    ensures WordsText(w) == Hex(w[0]) + "::" + Hex(w[7])
  {
    var best := BestRun(w);
    SkipRun(w, best, 2, 7);
    assert FormatFrom(w, best, 1) == ":" + (":" + Hex(w[7]));
    assert FormatFrom(w, best, 0) == Hex(w[0]) + (":" + (":" + Hex(w[7])));
    InteriorShape(Hex(w[0]), Hex(w[7]));
  }

  lemma InteriorShape(x: string, y: string)
    ensures x + (":" + (":" + y)) + "" == x + "::" + y
  {
  }

  // Endpoint text

  /** `address::to_string`, bracketed for IPv6 as the endpoint printer does. */
  function HostText(a: Address): string {
    match a
    case V4(x) => Dotted(x)
    case V6(x) => "[" + V6Text(x) + "]"
  }

  /**
   * `operator<<` on an endpoint: the host, a colon, the port. The port follows
   * the last colon, and only an IPv6 host is bracketed.
   */
  function EndpointText(e: Endpoint): (s: string)
    ensures AfterLast(s, ':') == Decimal(e.port)
    ensures 0 < |s| && (s[0] == '[' <==> e.address.V6?)
  {
    var s := HostText(e.address) + ":" + Decimal(e.port);
    AfterLastOf(HostText(e.address), ':', Decimal(e.port));
    s
  }

  // Reading an endpoint's text back

  /** The text before the first `c` and the text after it; all of `s` when there is no `c`. */
  function Field(s: string, c: char): (r: (string, string))
    ensures c !in r.0
    ensures c !in s ==> r == (s, "")
    ensures c in s ==> s == r.0 + [c] + r.1
  {
    if s == [] then (s, "")
    else if s[0] == c then ([], s[1..])
    else
      var t := Field(s[1..], c);
      assert c in s ==> c in s[1..];
      assert s == [s[0]] + s[1..];
      ([s[0]] + t.0, t.1)
  }

  lemma {:induction false} FieldOf(a: string, c: char, b: string)
    requires c !in a
    ensures Field(a + [c] + b, c) == (a, b)
    decreases |a|
  {
    var s := a + [c] + b;
    if a != [] {
      assert s[1..] == a[1..] + [c] + b;
      FieldOf(a[1..], c, b);
      assert a == [a[0]] + a[1..];
    }
  }

  /** The text after the last `c`; all of `s` when there is no `c`. */
  function AfterLast(s: string, c: char): string {
    if s == [] || s[|s| - 1] == c then [] else AfterLast(s[..|s| - 1], c) + [s[|s| - 1]]
  }

  lemma {:induction false} AfterLastOf(a: string, c: char, b: string)
    requires c !in b
    ensures AfterLast(a + [c] + b, c) == b
    decreases |b|
  {
    var s := a + [c] + b;
    if b != [] {
      var b' := b[..|b| - 1];
      assert s[..|s| - 1] == a + [c] + b';
      AfterLastOf(a, c, b');
      assert b == b' + [b[|b| - 1]];
    }
  }

  predicate IsNumeral(s: string) {
    |s| > 0 && AllDigits(s, 10)
  }

  /** The port of an endpoint's text: the decimal number after the last colon. */
  function ReadPort(s: string): Option<Port> {
    var p := AfterLast(s, ':');
    if IsNumeral(p) && NumeralValue(p, 10) < 0x1_0000 then Some(NumeralValue(p, 10)) else None
  }

  /** The port reads back from the text of every endpoint, IPv4 or IPv6. */
  lemma PortReadBack(e: Endpoint)
    ensures ReadPort(EndpointText(e)) == Some(e.port)
  {
  }

  /** The IPv6 host text sits between the leading bracket and the first closing one. */
  lemma V6HostReadBack(e: Endpoint)
    requires e.address.V6?
    ensures Field(EndpointText(e)[1..], ']').0 == V6Text(e.address.v6)
  {
    var t := V6Text(e.address.v6);
    var d := Decimal(e.port);
    assert EndpointText(e) == "[" + t + "]" + ":" + d;
    BracketedTail(t, d);
    assert ']' !in t by {
      assert AllV6Chars(t);
    }
    FieldOf(t, ']', ":" + d);
  }

  lemma BracketedTail(t: string, d: string)
    ensures ("[" + t + "]" + ":" + d)[1..] == t + [']'] + (":" + d)
  {
    assert "[" + t + "]" + ":" + d == ['['] + (t + [']'] + (":" + d));
  }

  lemma DottedFields(d1: string, d2: string, d3: string, d4: string, dp: string)
    ensures d1 + "." + d2 + "." + d3 + "." + d4 + ":" + dp
            == d1 + ['.'] + (d2 + ['.'] + (d3 + ['.'] + (d4 + [':'] + dp)))
  {
  }

  /** Reads `a.b.c.d:port` back. */
  function ReadV4(s: string): Option<Endpoint> {
    var f1 := Field(s, '.');
    var f2 := Field(f1.1, '.');
    var f3 := Field(f2.1, '.');
    var f4 := Field(f3.1, ':');
    ReadV4Fields(f1.0, f2.0, f3.0, f4.0, f4.1)
  }

  /** The endpoint spelled by four decimal bytes and a decimal port. */
  function ReadV4Fields(t1: string, t2: string, t3: string, t4: string, p: string): Option<Endpoint> {
    if IsNumeral(t1) && IsNumeral(t2) && IsNumeral(t3) && IsNumeral(t4) && IsNumeral(p)
       && NumeralValue(t1, 10) < 0x100 && NumeralValue(t2, 10) < 0x100
       && NumeralValue(t3, 10) < 0x100 && NumeralValue(t4, 10) < 0x100
       && NumeralValue(p, 10) < 0x1_0000
    then
      Some(Endpoint(V4(NumeralValue(t1, 10) * 0x100_0000 + NumeralValue(t2, 10) * 0x1_0000
                       + NumeralValue(t3, 10) * 0x100 + NumeralValue(t4, 10)),
                    NumeralValue(p, 10)))
    else None
  }

  lemma V4Reassembled(a: IPv4)
    ensures a == (a / 0x100_0000) * 0x100_0000 + (a / 0x1_0000 % 0x100) * 0x1_0000
                 + (a / 0x100 % 0x100) * 0x100 + a % 0x100
  {
    assert a / 0x100 == (a / 0x1_0000) * 0x100 + (a / 0x100) % 0x100;
    assert a / 0x1_0000 == (a / 0x100_0000) * 0x100 + (a / 0x1_0000) % 0x100;
    assert a == (a / 0x100) * 0x100 + a % 0x100;
  }

  lemma V4FieldsRead(a: IPv4, p: Port)
    ensures ReadV4Fields(Decimal(a / 0x100_0000), Decimal(a / 0x1_0000 % 0x100),
                         Decimal(a / 0x100 % 0x100), Decimal(a % 0x100), Decimal(p))
            == Some(Endpoint(V4(a), p))
  {
    var q1, q2, q3, q4 := a / 0x100_0000, a / 0x1_0000 % 0x100, a / 0x100 % 0x100, a % 0x100;
    assert NumeralValue(Decimal(q1), 10) == q1 < 0x100;
    assert NumeralValue(Decimal(q2), 10) == q2;
    assert NumeralValue(Decimal(q3), 10) == q3;
    assert NumeralValue(Decimal(q4), 10) == q4;
    assert NumeralValue(Decimal(p), 10) == p;
    V4Reassembled(a);
  }

  /** Every IPv4 endpoint's text reads back as that endpoint. */
  lemma V4ReadBack(e: Endpoint)
    requires e.address.V4?
    ensures ReadV4(EndpointText(e)) == Some(e)
  {
    var a := e.address.v4;
    var d1, d2, d3, d4 := Decimal(a / 0x100_0000), Decimal(a / 0x1_0000 % 0x100),
                          Decimal(a / 0x100 % 0x100), Decimal(a % 0x100);
    var dp := Decimal(e.port);
    var s := EndpointText(e);
    var r3 := d4 + [':'] + dp;
    var r2 := d3 + ['.'] + r3;
    var r1 := d2 + ['.'] + r2;
    assert s == d1 + "." + d2 + "." + d3 + "." + d4 + ":" + dp;
    DottedFields(d1, d2, d3, d4, dp);
    FieldOf(d1, '.', r1);
    FieldOf(d2, '.', r2);
    FieldOf(d3, '.', r3);
    FieldOf(d4, ':', dp);
    assert ReadV4(s) == ReadV4Fields(d1, d2, d3, d4, dp);
    V4FieldsRead(a, e.port);
  }
}
