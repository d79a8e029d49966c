/**
 * The pieces of the JavaScript runtime that the application's code relies on:
 * how a property of a parsed JSON body can look, string truthiness,
 * `String.prototype.split` on one character, lower-casing, substring search
 * and the decimal rendering of a non-negative integer.
 */
module Js {
  import opened Wrappers

  /**
   * A property of a parsed JSON request body, as a schema validator sees it:
   * missing (`undefined`), present with a value of the wrong JSON type
   * (a string where a number is expected, `null`, ...), or present with a
   * value of the expected type.
   */
  datatype Field<+T> = Absent | Invalid | Present(value: T)

  /**
   * How a call ends: it returns a value, or it throws. An awaited promise
   * ends the same way: it resolves or it rejects.
   */
  datatype Outcome<+T> = Returned(value: T) | Thrown(error: string)

  /** `!!s` for a value that is either a string or missing: only a non-empty string is truthy. */
  predicate Truthy(s: Option<string>)
  {
    s.Some? && s.value != ""
  }

  /**
   * `s || fallback` for a string that may be missing: the string itself when
   * it is truthy, the fallback otherwise; never empty when the fallback is not.
   */
  function OrElse(s: Option<string>, fallback: string): (r: string)
    ensures Truthy(s) ==> r == s.value
    ensures !Truthy(s) ==> r == fallback
    ensures fallback != "" ==> r != ""
  {
    if Truthy(s) then s.value else fallback
  }

  /**
   * `s.split(sep)` for a one-character separator: the maximal runs between
   * separators, left to right; a string with no separator is one piece.
   */
  function Split(s: string, sep: char): (parts: seq<string>)
    ensures |parts| >= 1
    ensures forall i :: 0 <= i < |parts| ==> sep !in parts[i]
    ensures |parts| == 1 <==> sep !in s
    decreases |s|
  {
    if s == [] then [""]
    else
      var rest := Split(s[1..], sep);
      if s[0] == sep then [""] + rest
      else [[s[0]] + rest[0]] + rest[1..]
  }

  /** `parts.join(sep)`: the pieces with one separator between neighbours. */
  function Join(parts: seq<string>, sep: char): string
    requires |parts| >= 1
  {
    if |parts| == 1 then parts[0] else parts[0] + [sep] + Join(parts[1..], sep)
  }

  /** Splitting loses nothing: joining the pieces gives the string back. */
  lemma {:induction false} JoinSplit(s: string, sep: char)
    ensures Join(Split(s, sep), sep) == s
    decreases |s|
  {
    if s != [] {
      var rest := Split(s[1..], sep);
      JoinSplit(s[1..], sep);
      if s[0] == sep {
        JoinAfterEmpty(rest, sep);
      } else {
        JoinExtendFirst(s[0], rest, sep);
      }
      assert [s[0]] + s[1..] == s;
    }
  }

  /** An empty first piece contributes only its separator. */
  lemma JoinAfterEmpty(parts: seq<string>, sep: char)
    requires |parts| >= 1
    ensures Join([""] + parts, sep) == [sep] + Join(parts, sep)
  {
    var q := [""] + parts;
    assert q[1..] == parts;
  }

  /** Growing the first piece at its front grows the joined string at its front. */
  lemma JoinExtendFirst(c: char, parts: seq<string>, sep: char)
    requires |parts| >= 1
    ensures Join([[c] + parts[0]] + parts[1..], sep) == [c] + Join(parts, sep)
  {
    var q := [[c] + parts[0]] + parts[1..];
    assert q[1..] == parts[1..];
    if |parts| > 1 {
      assert Join(q, sep) == ([c] + parts[0]) + [sep] + Join(parts[1..], sep);
      assert Join(parts, sep) == parts[0] + [sep] + Join(parts[1..], sep);
    }
  }

  /** A string without the separator is a single piece: itself. */
  lemma SplitWithoutSeparator(s: string, sep: char)
    requires sep !in s
    ensures Split(s, sep) == [s]
  {
    JoinSplit(s, sep);
  }

  /** A separator-free head followed by the separator becomes the first piece. */
  lemma {:induction false} SplitAfterHead(head: string, sep: char, tail: string)
    requires sep !in head
    ensures Split(head + [sep] + tail, sep) == [head] + Split(tail, sep)
    decreases |head|
  {
    var s := head + [sep] + tail;
    if head == [] {
      assert s[1..] == tail;
    } else {
      assert s[0] == head[0] && s[0] != sep;
      assert s[1..] == head[1..] + [sep] + tail;
      SplitAfterHead(head[1..], sep, tail);
      var rest := Split(s[1..], sep);
      assert rest == [head[1..]] + Split(tail, sep);
      assert rest[0] == head[1..] && rest[1..] == Split(tail, sep);
      assert Split(s, sep) == [[s[0]] + rest[0]] + rest[1..];
      assert [head[0]] + head[1..] == head;
    }
  }

  /** Code units a character takes in UTF-16: two beyond the Basic Multilingual Plane, one otherwise. */
  function Utf16Units(c: char): (n: nat)
    ensures n == 1 || n == 2
    ensures n == 2 <==> c as int >= 0x10000
  {
    if c as int >= 0x10000 then 2 else 1
  }

  /** A string's `length` in JavaScript: the number of its UTF-16 code units. */
  function Utf16Length(s: string): (n: nat)
    ensures |s| <= n <= 2 * |s|
  {
    if s == [] then 0 else Utf16Units(s[0]) + Utf16Length(s[1..])
  }

  /** On text inside the Basic Multilingual Plane, `length` counts characters. */
  lemma {:induction false} Utf16LengthOfPlane(s: string)
    requires forall i :: 0 <= i < |s| ==> s[i] as int < 0x10000
    ensures Utf16Length(s) == |s|
  {
    if s != [] {
      assert forall i :: 0 <= i < |s[1..]| ==> s[1..][i] == s[i + 1];
      Utf16LengthOfPlane(s[1..]);
    }
  }

  /** A string of astral characters is twice as long as it has characters. */
  lemma {:induction false} Utf16LengthOfAstral(s: string)
    requires forall i :: 0 <= i < |s| ==> s[i] as int >= 0x10000
    ensures Utf16Length(s) == 2 * |s|
  {
    if s != [] {
      assert forall i :: 0 <= i < |s[1..]| ==> s[1..][i] == s[i + 1];
      Utf16LengthOfAstral(s[1..]);
    }
  }

  /** ASCII lower-casing of one character; every other character is kept. */
  function LowerChar(c: char): char
  {
    if 'A' <= c <= 'Z' then (c as int + 32) as char else c
  }

  /** `s.toLowerCase()` restricted to ASCII letters. */
  function Lower(s: string): string
  {
    seq(|s|, i requires 0 <= i < |s| => LowerChar(s[i]))
  }

  /** `a` and `b` are equal once ASCII letters are lower-cased. */
  predicate EqualIgnoringCase(a: string, b: string)
  {
    |a| == |b| && forall i :: 0 <= i < |a| ==> LowerChar(a[i]) == LowerChar(b[i])
  }

  /** Comparing without regard to case is comparing the lower-cased strings. */
  lemma EqualIgnoringCaseIsLowerEqual(a: string, b: string)
    ensures EqualIgnoringCase(a, b) <==> Lower(a) == Lower(b)
  {
    assert forall i :: 0 <= i < |a| ==> Lower(a)[i] == LowerChar(a[i]);
    assert forall i :: 0 <= i < |b| ==> Lower(b)[i] == LowerChar(b[i]);
    if Lower(a) == Lower(b) {
      assert |a| == |Lower(a)| == |Lower(b)| == |b|;
    }
    if EqualIgnoringCase(a, b) {
      assert |Lower(a)| == |Lower(b)|;
      assert forall i :: 0 <= i < |a| ==> Lower(a)[i] == Lower(b)[i];
      assert Lower(a) == Lower(b);
    }
  }

  /** `needle` occurs in `hay` starting at offset `i`. */
  predicate OccursAt(hay: string, needle: string, i: int)
  {
    0 <= i <= |hay| - |needle| && hay[i..i + |needle|] == needle
  }

  /** `hay.includes(needle)`: `needle` occurs in `hay` at some offset. */
  predicate Includes(hay: string, needle: string)
  {
    exists i :: 0 <= i <= |hay| && OccursAt(hay, needle, i)
  }

  /** The character of a decimal digit. */
  function DigitChar(d: nat): char
    requires d < 10
  {
    "0123456789"[d]
  }

  /** The numeric value of a character `'0'`..`'9'`. */
  function DigitValue(c: char): nat
  {
    if '0' <= c <= '9' then c as nat - '0' as nat else 0
  }

  predicate IsDigit(c: char)
  {
    '0' <= c <= '9'
  }

  /** A digit's character reads back as the digit. */
  lemma DigitValueOfDigitChar(d: nat)
    requires d < 10
    ensures DigitValue(DigitChar(d)) == d
  {
    assert DigitChar(d) as nat == '0' as nat + d;
  }

  /** `String(n)` for a non-negative integer: its decimal digits, most significant first. */
  function NumberToString(n: nat): (s: string)
    ensures |s| >= 1
    ensures forall i :: 0 <= i < |s| ==> IsDigit(s[i])
    decreases n
  {
    if n < 10 then [DigitChar(n)] else NumberToString(n / 10) + [DigitChar(n % 10)]
  }

  /** The value of a string of decimal digits. */
  function DecimalValue(s: string): nat
    decreases |s|
  {
    if s == [] then 0 else DecimalValue(s[..|s| - 1]) * 10 + DigitValue(s[|s| - 1])
  }

  /** Reading the digits back gives the number: the rendering loses nothing. */
  lemma {:induction false} DecimalValueOfNumberToString(n: nat)
    ensures DecimalValue(NumberToString(n)) == n
    decreases n
  {
    if n >= 10 {
      var s := NumberToString(n);
      DecimalValueOfNumberToString(n / 10);
      assert s == NumberToString(n / 10) + [DigitChar(n % 10)];
      assert s[..|s| - 1] == NumberToString(n / 10);
      DigitValueOfDigitChar(n % 10);
      assert DecimalValue(s) == DecimalValue(NumberToString(n / 10)) * 10 + n % 10;
    }
  }

  /** Different numbers are rendered differently. */
  lemma NumberToStringInjective(m: nat, n: nat)
    requires NumberToString(m) == NumberToString(n)
    ensures m == n
  {
    DecimalValueOfNumberToString(m);
    DecimalValueOfNumberToString(n);
  }
}
