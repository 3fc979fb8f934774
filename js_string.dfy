/**
 * The few JavaScript string built-ins the application relies on, with the semantics of
 * the ECMAScript standard: `String.prototype.length` (UTF-16 code units),
 * `String.prototype.substring` with one argument, `Number.prototype.toString()` on a
 * non-negative integer, and the `\s` and `\d` character classes of regular expressions.
 * A JavaScript string is modelled as a sequence of Unicode scalar values.
 */
module JsString {

  /** `s.length`: a scalar value above U+FFFF takes two UTF-16 code units. */
  function Utf16Length(s: string): (n: nat)
    ensures |s| <= n <= 2 * |s|
    ensures (forall i :: 0 <= i < |s| ==> s[i] as int <= 0xFFFF) ==> n == |s|
  {
    if s == [] then 0
    else (if s[0] as int > 0xFFFF then 2 else 1) + Utf16Length(s[1..])
  }

  /** `s.substring(start)` for a non-negative start: a start past the end is clamped to the end. */
  function Substring(s: string, start: nat): (r: string)
    ensures start >= |s| ==> r == ""
    ensures start < |s| ==> |r| == |s| - start && forall i :: 0 <= i < |r| ==> r[i] == s[start + i]
  {
    if start >= |s| then "" else s[start..]
  }

  /** The character a decimal digit value is written as. */
  function DigitChar(d: nat): (c: char)
    requires d < 10
    ensures '0' <= c <= '9' && (c as int) - ('0' as int) == d
  {
    (('0' as int) + d) as char
  }

  /** `n.toString()` for a non-negative integer: decimal, no leading zeros. */
  function DecimalString(n: nat): (s: string)
    ensures |s| >= 1
    ensures forall i :: 0 <= i < |s| ==> IsAsciiDigit(s[i])
    ensures n >= 10 ==> s[0] != '0'
  {
    if n < 10 then [DigitChar(n)] else DecimalString(n / 10) + [DigitChar(n % 10)]
  }

  function DigitValue(c: char): (d: nat)
    requires IsAsciiDigit(c)
    ensures d < 10 && DigitChar(d) == c
  {
    (c as int) - ('0' as int)
  }

  /** Reads a string of ASCII decimal digits back as the number it denotes. */
  function ParseDecimal(s: string): nat
    requires forall i :: 0 <= i < |s| ==> IsAsciiDigit(s[i])
  {
    if s == [] then 0
    else 10 * ParseDecimal(s[..|s| - 1]) + DigitValue(s[|s| - 1])
  }

  /** `toString()` is undone by reading the digits back. */
  lemma {:induction false} ParseDecimalString(n: nat)
    ensures ParseDecimal(DecimalString(n)) == n
  {
    var s := DecimalString(n);
    if n >= 10 {
      ParseDecimalString(n / 10);
      assert s[..|s| - 1] == DecimalString(n / 10);
    }
  }

  /** A number below 10^k, for k >= 1, is written with at most k digits. */
  lemma {:induction false} DecimalStringLength(n: nat, k: nat)
    requires k >= 1
    requires n < Power10(k)
    ensures |DecimalString(n)| <= k
  {
    if n >= 10 {
      assert k >= 2;
      DecimalStringLength(n / 10, k - 1);
    }
  }

  function Power10(k: nat): nat
  {
    if k == 0 then 1 else 10 * Power10(k - 1)
  }

  /** JavaScript's `\d`: ASCII digits only. */
  predicate IsAsciiDigit(c: char)
  {
    '0' <= c <= '9'
  }

  /**
   * JavaScript's `\s`: the WhiteSpace and LineTerminator code points of ECMAScript —
   * tab, line feed, vertical tab, form feed, carriage return, space, no-break space,
   * and the Unicode space separators, line and paragraph separators and the byte order mark.
   */
  predicate IsJsWhitespace(c: char)
  {
    c == '\t' || c == '\n' || c == '\U{000B}' || c == '\U{000C}' || c == '\r' || c == ' '
    || c == '\U{00A0}' || c == '\U{1680}' || ('\U{2000}' <= c <= '\U{200A}')
    || c == '\U{2028}' || c == '\U{2029}' || c == '\U{202F}' || c == '\U{205F}'
    || c == '\U{3000}' || c == '\U{FEFF}'
  }

  /**
   * The UTF-16 code units of a character: itself below U+10000, otherwise a high and a
   * low surrogate.
   */
  function UnitsOf(c: char): (units: seq<int>)
    ensures 1 <= |units| <= 2
    ensures |units| == 1 <==> c as int <= 0xFFFF
    ensures |units| == 1 ==> !(0xD800 <= units[0] <= 0xDBFF)
    ensures |units| == 2 ==> 0xD800 <= units[0] <= 0xDBFF
  {
    var v := c as int;
    if v <= 0xFFFF then [v]
    else [0xD800 + (v - 0x10000) / 0x400, 0xDC00 + (v - 0x10000) % 0x400]
  }

  type Byte = b: int | 0 <= b < 0x100

  /** The UTF-8 encoding of one character: one byte below U+0080, up to four above. */
  function Utf8Char(c: char): (bytes: seq<Byte>)
    ensures 1 <= |bytes| <= 4
    ensures c as int < 0x80 <==> |bytes| == 1
    ensures c as int < 0x80 ==> bytes[0] == c as int
    ensures forall k :: 0 < k < |bytes| ==> 0x80 <= bytes[k] < 0xC0
  {
    var v := c as int;
    if v < 0x80 then [v]
    else if v < 0x800 then [0xC0 + v / 0x40, 0x80 + v % 0x40]
    else if v < 0x10000 then [0xE0 + v / 0x1000, 0x80 + v / 0x40 % 0x40, 0x80 + v % 0x40]
    else [0xF0 + v / 0x40000, 0x80 + v / 0x1000 % 0x40, 0x80 + v / 0x40 % 0x40, 0x80 + v % 0x40]
  }

  /** The UTF-8 bytes of a string, the form in which a password reaches bcrypt. */
  function Utf8(s: string): (bytes: seq<Byte>)
    ensures |s| <= |bytes| <= 4 * |s|
  {
    if s == [] then [] else Utf8Char(s[0]) + Utf8(s[1..])
  }

  /** Encoding respects concatenation. */
  lemma {:induction false} Utf8Append(a: string, b: string)
    ensures Utf8(a + b) == Utf8(a) + Utf8(b)
  {
    if a == [] {
      assert a + b == b;
    } else {
      assert (a + b)[0] == a[0] && (a + b)[1..] == a[1..] + b;
      Utf8Append(a[1..], b);
    }
  }

  /** The UTF-16 code units of a string, the sequence JavaScript compares strings by. */
  function CodeUnits(s: string): seq<int>
  {
    if s == [] then [] else UnitsOf(s[0]) + CodeUnits(s[1..])
  }

  /** `s.length` counts exactly the code units. */
  lemma {:induction false} CodeUnitsLength(s: string)
    ensures |CodeUnits(s)| == Utf16Length(s)
  {
    if s != [] {
      CodeUnitsLength(s[1..]);
    }
  }

  /** Different strings have different code units. */
  lemma {:induction false} CodeUnitsInjective(a: string, b: string)
    requires CodeUnits(a) == CodeUnits(b)
    ensures a == b
  {
    if a != [] && b != [] {
      var ua, ub := UnitsOf(a[0]), UnitsOf(b[0]);
      assert CodeUnits(a)[0] == ua[0] && CodeUnits(b)[0] == ub[0];
      assert |ua| == |ub|;
      assert ua == CodeUnits(a)[..|ua|] && ub == CodeUnits(b)[..|ub|];
      assert CodeUnits(a[1..]) == CodeUnits(a)[|ua|..] && CodeUnits(b[1..]) == CodeUnits(b)[|ub|..];
      UnitsOfInjective(a[0], b[0]);
      CodeUnitsInjective(a[1..], b[1..]);
      assert a == [a[0]] + a[1..] && b == [b[0]] + b[1..];
    }
  }

  lemma UnitsOfInjective(c: char, d: char)
    requires UnitsOf(c) == UnitsOf(d)
    ensures c == d
  {
    var v, w := c as int, d as int;
    if v > 0xFFFF {
      assert (v - 0x10000) / 0x400 == (w - 0x10000) / 0x400;
      assert (v - 0x10000) % 0x400 == (w - 0x10000) % 0x400;
      assert v - 0x10000 == 0x400 * ((v - 0x10000) / 0x400) + (v - 0x10000) % 0x400;
      assert w - 0x10000 == 0x400 * ((w - 0x10000) / 0x400) + (w - 0x10000) % 0x400;
    }
  }

  /** Lexicographic order on code-unit sequences; a proper prefix comes first. */
  predicate UnitsLess(a: seq<int>, b: seq<int>)
  {
    if a == [] then b != []
    else b != [] && (a[0] < b[0] || (a[0] == b[0] && UnitsLess(a[1..], b[1..])))
  }

  /** The default comparison of `Array.prototype.sort`: by UTF-16 code units. */
  predicate StringLess(a: string, b: string)
  {
    UnitsLess(CodeUnits(a), CodeUnits(b))
  }

  lemma {:induction false} UnitsLessAsymmetric(a: seq<int>, b: seq<int>)
    ensures !(UnitsLess(a, b) && UnitsLess(b, a))
  {
    if a != [] && b != [] && a[0] == b[0] {
      UnitsLessAsymmetric(a[1..], b[1..]);
    }
  }

  lemma {:induction false} UnitsLessTotal(a: seq<int>, b: seq<int>)
    requires a != b
    ensures UnitsLess(a, b) || UnitsLess(b, a)
  {
    if a != [] && b != [] && a[0] == b[0] {
      assert a == [a[0]] + a[1..] && b == [b[0]] + b[1..];
      UnitsLessTotal(a[1..], b[1..]);
    }
  }

  lemma {:induction false} UnitsLessTransitive(a: seq<int>, b: seq<int>, c: seq<int>)
    requires UnitsLess(a, b) && UnitsLess(b, c)
    ensures UnitsLess(a, c)
  {
    if a != [] && a[0] == b[0] && b[0] == c[0] {
      UnitsLessTransitive(a[1..], b[1..], c[1..]);
    }
  }

  /** The string order is transitive, so with trichotomy it is a strict total order. */
  lemma StringLessTransitive(a: string, b: string, c: string)
    requires StringLess(a, b) && StringLess(b, c)
    ensures StringLess(a, c)
  {
    UnitsLessTransitive(CodeUnits(a), CodeUnits(b), CodeUnits(c));
  }

  /** Of two different strings exactly one comes first, and no string comes before itself. */
  lemma StringLessTrichotomy(a: string, b: string)
    ensures !(StringLess(a, b) && StringLess(b, a))
    ensures a != b ==> StringLess(a, b) || StringLess(b, a)
    ensures a == b ==> !StringLess(a, b)
  {
    UnitsLessAsymmetric(CodeUnits(a), CodeUnits(b));
    if a != b {
      if CodeUnits(a) == CodeUnits(b) {
        CodeUnitsInjective(a, b);
      }
      UnitsLessTotal(CodeUnits(a), CodeUnits(b));
    }
  }
}
