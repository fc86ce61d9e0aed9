/**
 * String helpers of src/util.cpp: `replace_all` (non-overlapping, left-to-right
 * substring replacement) and `generate_random_string`, plus the three-fold
 * escaping that src/audio_sinks_manager.cpp applies to a sink's description.
 */
module Util {

  /** `what` occurs in `s` starting at index `i`. */
  predicate MatchAt(s: string, what: string, i: nat) {
    i + |what| <= |s| && s[i..i + |what|] == what
  }

  /**
   * `std::search(s.begin() + from, s.end(), what...)`: the leftmost index at or
   * after `from` where `what` occurs, or `|s|` (the end iterator) if there is none.
   */
  function Search(s: string, what: string, from: nat): (i: nat)
    requires from <= |s|
    requires |what| > 0
    ensures from <= i <= |s|
    ensures i < |s| ==> MatchAt(s, what, i)
    decreases |s| - from
  {
    if |s| - from < |what| then |s|
    else if s[from..from + |what|] == what then from
    else Search(s, what, from + 1)
  }

  /** The search finds the leftmost occurrence: nothing matches before it. */
  lemma {:induction false} SearchIsLeftmost(s: string, what: string, from: nat)
    requires from <= |s|
    requires |what| > 0
    ensures forall j :: from <= j < Search(s, what, from) ==> !MatchAt(s, what, j)
    ensures Search(s, what, from) == |s| ==> forall j :: from <= j < |s| ==> !MatchAt(s, what, j)
    decreases |s| - from
  {
    if |s| - from >= |what| && s[from..from + |what|] != what {
      SearchIsLeftmost(s, what, from + 1);
    }
  }

  /**
   * Reference definition of replacing every occurrence of `what` by `to` in
   * `str[i..]`: at each position either the pattern matches (it is replaced and
   * skipped as a whole) or one character is copied verbatim.
   */
  function ReplacedFrom(str: string, what: string, to: string, i: nat): string
    requires i <= |str|
    requires |what| > 0
    decreases |str| - i
  {
    if i == |str| then []
    else if MatchAt(str, what, i) then to + ReplacedFrom(str, what, to, i + |what|)
    else [str[i]] + ReplacedFrom(str, what, to, i + 1)
  }

  function Replaced(str: string, what: string, to: string): string
    requires |what| > 0
  {
    ReplacedFrom(str, what, to, 0)
  }

  /** Number of non-overlapping occurrences in `str[i..]`, scanning left to right. */
  function MatchesFrom(str: string, what: string, i: nat): nat
    requires i <= |str|
    requires |what| > 0
    decreases |str| - i
  {
    if i == |str| then 0
    else if MatchAt(str, what, i) then 1 + MatchesFrom(str, what, i + |what|)
    else MatchesFrom(str, what, i + 1)
  }

  /** The text from `prev` up to the next match is copied verbatim, then `to`. */
  lemma {:induction false} ReplacedAtNextMatch(str: string, what: string, to: string, prev: nat)
    requires |what| > 0
    requires prev <= |str|
    requires Search(str, what, prev) < |str|
    ensures Search(str, what, prev) + |what| <= |str|
    ensures ReplacedFrom(str, what, to, prev)
            == str[prev..Search(str, what, prev)] + to
               + ReplacedFrom(str, what, to, Search(str, what, prev) + |what|)
    decreases |str| - prev
  {
    if !MatchAt(str, what, prev) {
      ReplacedAtNextMatch(str, what, to, prev + 1);
      var curr := Search(str, what, prev);
      assert str[prev..curr] == [str[prev]] + str[prev + 1..curr];
    }
  }

  /** After the last match the rest of the string is copied verbatim. */
  lemma {:induction false} ReplacedAfterLastMatch(str: string, what: string, to: string, prev: nat)
    requires |what| > 0
    requires prev <= |str|
    requires Search(str, what, prev) == |str|
    ensures ReplacedFrom(str, what, to, prev) == str[prev..]
    decreases |str| - prev
  {
    if prev < |str| {
      assert !MatchAt(str, what, prev);
      ReplacedAfterLastMatch(str, what, to, prev + 1);
      assert str[prev..] == [str[prev]] + str[prev + 1..];
    }
  }

  /**
   * `replace_all` as written: search, copy the text before the match, append
   * `to`, resume right after the match; finally copy the rest of `str`.
   * `what` must be non-empty: with an empty pattern the search never advances.
   */
  method ReplaceAll(str: string, what: string, to: string) returns (result: string)
    requires |what| > 0
    ensures result == Replaced(str, what, to)
  {
    result := [];
    var prev := 0;
    var curr := Search(str, what, 0);
    while curr != |str|
      invariant prev <= curr <= |str|
      invariant curr == Search(str, what, prev)
      invariant result + ReplacedFrom(str, what, to, prev) == Replaced(str, what, to)
      decreases |str| - prev
    {
      ReplacedAtNextMatch(str, what, to, prev);
      result := result + (str[prev..curr] + to);
      prev := curr + |what|;
      curr := Search(str, what, prev);
    }
    ReplacedAfterLastMatch(str, what, to, prev);
    result := result + str[prev..];
  }

  /** With no occurrence of `what`, the string is returned unchanged. */
  lemma ReplacedWithoutMatch(str: string, what: string, to: string)
    requires |what| > 0
    requires forall j :: 0 <= j < |str| ==> !MatchAt(str, what, j)
    ensures Replaced(str, what, to) == str
  {
    ReplacedAfterLastMatch(str, what, to, 0);
    assert str[0..] == str;
  }

  /** Each of the `k` matches changes the length by `|to| - |what|`. */
  lemma {:induction false} ReplacedLength(str: string, what: string, to: string, i: nat)
    requires |what| > 0
    requires i <= |str|
    ensures |ReplacedFrom(str, what, to, i)|
            == |str| - i + MatchesFrom(str, what, i) * (|to| - |what|)
    decreases |str| - i
  {
    if i == |str| {
    } else if MatchAt(str, what, i) {
      ReplacedLength(str, what, to, i + |what|);
      var m := MatchesFrom(str, what, i + |what|);
      var d := |to| - |what|;
      assert (m + 1) * d == m * d + d;
    } else {
      ReplacedLength(str, what, to, i + 1);
    }
  }

  /** Replacing a single character `c` by `to`, character by character. */
  function ReplaceChar(s: string, c: char, to: string): string
    decreases |s|
  {
    if |s| == 0 then [] else (if s[0] == c then to else [s[0]]) + ReplaceChar(s[1..], c, to)
  }

  lemma {:induction false} ReplacedSingleChar(s: string, c: char, to: string, i: nat)
    requires i <= |s|
    ensures ReplacedFrom(s, [c], to, i) == ReplaceChar(s[i..], c, to)
    decreases |s| - i
  {
    if i < |s| {
      assert MatchAt(s, [c], i) <==> s[i] == c by {
        if i + 1 <= |s| {
          assert s[i..i + 1] == [s[i]];
        }
      }
      ReplacedSingleChar(s, c, to, i + 1);
      assert s[i..][1..] == s[i + 1..];
    }
  }

  lemma {:induction false} ReplaceCharConcat(a: string, b: string, c: char, to: string)
    ensures ReplaceChar(a + b, c, to) == ReplaceChar(a, c, to) + ReplaceChar(b, c, to)
    decreases |a|
  {
    if |a| > 0 {
      assert (a + b)[1..] == a[1..] + b;
      ReplaceCharConcat(a[1..], b, c, to);
    } else {
      assert a + b == b;
    }
  }

  /** How one character of a sink name is written into the module arguments. */
  function EscapeChar(ch: char): string {
    if ch == '\\' then "\\\\"
    else if ch == ' ' then "\\ "
    else if ch == '"' then "\\\""
    else [ch]
  }

  function EscapeEach(s: string): string
    decreases |s|
  {
    if |s| == 0 then [] else EscapeChar(s[0]) + EscapeEach(s[1..])
  }

  /** The escaping of a sink name: backslashes first, then spaces, then quotes. */
  function EscapeName(name: string): string {
    Replaced(Replaced(Replaced(name, "\\", "\\\\"), " ", "\\ "), "\"", "\\\"")
  }

  /** Reading a backslash-escaped string back: `\x` stands for `x`. */
  function Unescape(s: string): string
    decreases |s|
  {
    if |s| == 0 then []
    else if s[0] == '\\' && |s| >= 2 then [s[1]] + Unescape(s[2..])
    else [s[0]] + Unescape(s[1..])
  }

  function Escape3(s: string): string {
    ReplaceChar(ReplaceChar(ReplaceChar(s, '\\', "\\\\"), ' ', "\\ "), '"', "\\\"")
  }

  lemma {:induction false} Escape3IsEach(s: string)
    ensures Escape3(s) == EscapeEach(s)
    decreases |s|
  {
    if |s| > 0 {
      assert s == [s[0]] + s[1..];
      ReplaceCharConcat([s[0]], s[1..], '\\', "\\\\");
      var a1 := ReplaceChar([s[0]], '\\', "\\\\");
      var b1 := ReplaceChar(s[1..], '\\', "\\\\");
      ReplaceCharConcat(a1, b1, ' ', "\\ ");
      var a2 := ReplaceChar(a1, ' ', "\\ ");
      var b2 := ReplaceChar(b1, ' ', "\\ ");
      ReplaceCharConcat(a2, b2, '"', "\\\"");
      var a3 := ReplaceChar(a2, '"', "\\\"");
      assert a3 == EscapeChar(s[0]) by {
        assert [s[0]][1..] == [];
        if s[0] == '\\' {
          assert a1 == "\\\\";
          assert "\\\\"[1..] == "\\";
          assert "\\"[1..] == [];
        } else {
          assert a1 == [s[0]];
          if s[0] == ' ' {
            assert a2 == "\\ ";
            assert "\\ "[1..] == " ";
            assert " "[1..] == [];
          } else {
            assert a2 == [s[0]];
            assert "\\\""[1..] == "\"";
            assert "\""[1..] == [];
          }
        }
      }
      Escape3IsEach(s[1..]);
    }
  }

  /** The three replacements amount to escaping each character on its own. */
  lemma EscapeNameIsPerCharacter(name: string)
    ensures EscapeName(name) == EscapeEach(name)
  {
    ReplacedSingleChar(name, '\\', "\\\\", 0);
    assert name[0..] == name;
    var s1 := ReplaceChar(name, '\\', "\\\\");
    ReplacedSingleChar(s1, ' ', "\\ ", 0);
    assert s1[0..] == s1;
    var s2 := ReplaceChar(s1, ' ', "\\ ");
    ReplacedSingleChar(s2, '"', "\\\"", 0);
    assert s2[0..] == s2;
    Escape3IsEach(name);
  }

  lemma {:induction false} UnescapeEach(s: string)
    ensures Unescape(EscapeEach(s)) == s
    decreases |s|
  {
    if |s| > 0 {
      var e := EscapeEach(s);
      assert e == EscapeChar(s[0]) + EscapeEach(s[1..]);
      UnescapeEach(s[1..]);
      if s[0] == '\\' || s[0] == ' ' || s[0] == '"' {
        assert e[2..] == EscapeEach(s[1..]);
      } else {
        assert e[1..] == EscapeEach(s[1..]);
      }
    }
  }

  /**
   * The escaping is lossless: reading the escaped description back gives the
   * sink name, so distinct names never produce the same description.
   */
  lemma EscapeNameRoundTrip(name: string)
    ensures Unescape(EscapeName(name)) == name
  {
    EscapeNameIsPerCharacter(name);
    UnescapeEach(name);
  }

  /**
   * `generate_random_string`: the random generator is a parameter, the stream of
   * indices `draws` that `uniform_int_distribution(0, |characters|-1)` produces.
   */
  method GenerateRandomString(length: nat, characters: string, draws: seq<nat>)
    returns (result: string)
    requires |characters| > 0
    requires |draws| >= length
    requires forall i :: 0 <= i < |draws| ==> draws[i] < |characters|
    ensures |result| == length
    ensures forall i :: 0 <= i < length ==> result[i] == characters[draws[i]]
    ensures forall i :: 0 <= i < length ==> result[i] in characters
  {
    result := [];
    var i := 0;
    while i < length
      invariant i <= length
      invariant |result| == i
      invariant forall k :: 0 <= k < i ==> result[k] == characters[draws[k]]
    {
      result := result + [characters[draws[i]]];
      i := i + 1;
    }
  }
}
