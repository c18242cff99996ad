/**
 * Byte-level text: the pieces of Rust's `str` and integer parsing that the
 * daemon relies on, stated over UTF-8 bytes.
 *
 * A Rust `&str` is a sequence of bytes known to be valid UTF-8; every
 * function below takes the bytes. Whitespace follows Rust: the daemon's own
 * `is_ascii_whitespace` / `is_ascii_ws` (space, tab, LF, CR, VT, FF), and
 * `char::is_whitespace` (those six plus the non-ASCII White_Space code
 * points) for `str::trim` and `str::split_whitespace`.
 */
module Text {
  import opened Wrappers

  type byte = b: int | 0 <= b < 256
  type Bytes = seq<byte>

  const TAB: byte := 9
  const LF: byte := 10
  const VT: byte := 11
  const FF: byte := 12
  const CR: byte := 13
  const SPACE: byte := 32
  const DQUOTE: byte := 34
  const HASH: byte := 35
  const SQUOTE: byte := 39
  const STAR: byte := 42
  const PLUS: byte := 43
  const COMMA: byte := 44
  const DASH: byte := 45
  const SLASH: byte := 47
  const ZERO: byte := 48
  const EQUALS: byte := 61
  const BACKSLASH: byte := 92
  const RBRACKET: byte := 93

  /** `usize` on a 64-bit target: arithmetic wraps modulo 2^64. */
  const USIZE_MODULUS: nat := 0x1_0000_0000_0000_0000
  const USIZE_MAX: nat := USIZE_MODULUS - 1

  /** The bytes of an ASCII literal. */
  function Ascii(s: string): (r: Bytes)
    requires forall i :: 0 <= i < |s| ==> s[i] as int < 128
    ensures |r| == |s|
  {
    seq(|s|, i requires 0 <= i < |s| => s[i] as int)
  }

  /** The ASCII whitespace set shared by shell.rs and loader.rs. */
  predicate IsAsciiWhitespace(b: byte) {
    b == SPACE || b == TAB || b == LF || b == CR || b == VT || b == FF
  }

  /** A three-byte UTF-8 encoding of a White_Space code point:
    * U+1680, U+2000..U+200A, U+2028, U+2029, U+202F, U+205F, U+3000. */
  predicate IsWideWhitespace(a: byte, b: byte, c: byte) {
    || (a == 0xE1 && b == 0x9A && c == 0x80)
    || (a == 0xE2 && b == 0x80 && (0x80 <= c <= 0x8A || c == 0xA8 || c == 0xA9 || c == 0xAF))
    || (a == 0xE2 && b == 0x81 && c == 0x9F)
    || (a == 0xE3 && b == 0x80 && c == 0x80)
  }

  /** Length of the whitespace character `s` starts with (`char::is_whitespace`),
    * 0 when it does not start with one. U+0085 and U+00A0 are two bytes. */
  function WsLen(s: Bytes): (k: nat)
    ensures k <= |s|
  {
    if |s| == 0 then 0
    else if IsAsciiWhitespace(s[0]) then 1
    else if |s| >= 2 && s[0] == 0xC2 && (s[1] == 0x85 || s[1] == 0xA0) then 2
    else if |s| >= 3 && IsWideWhitespace(s[0], s[1], s[2]) then 3
    else 0
  }

  /** Length of the whitespace character `s` ends with, 0 when none. */
  function WsLenAtEnd(s: Bytes): (k: nat)
    ensures k <= |s|
  {
    var n := |s|;
    if n == 0 then 0
    else if IsAsciiWhitespace(s[n - 1]) then 1
    else if n >= 2 && s[n - 2] == 0xC2 && (s[n - 1] == 0x85 || s[n - 1] == 0xA0) then 2
    else if n >= 3 && IsWideWhitespace(s[n - 3], s[n - 2], s[n - 1]) then 3
    else 0
  }

  function TrimStart(s: Bytes): (r: Bytes)
    ensures |r| <= |s|
    decreases |s|
  {
    var k := WsLen(s);
    if k == 0 then s else TrimStart(s[k..])
  }

  function TrimEnd(s: Bytes): (r: Bytes)
    ensures |r| <= |s|
    decreases |s|
  {
    var k := WsLenAtEnd(s);
    if k == 0 then s else TrimEnd(s[..|s| - k])
  }

  /** Rust's `str::trim`: leading and trailing `char::is_whitespace` removed. */
  function Trimmed(s: Bytes): (r: Bytes)
    ensures |r| <= |s|
  {
    TrimEnd(TrimStart(s))
  }

  /** Width of the separator `s` starts with: a White_Space character when
    * `unicode`, else one byte of the ASCII set. */
  function WsWidth(s: Bytes, unicode: bool): (k: nat)
    ensures k <= |s|
  {
    if unicode then WsLen(s)
    else if |s| > 0 && IsAsciiWhitespace(s[0]) then 1
    else 0
  }

  /** A token buffer as the list of tokens it contributes: nothing when empty. */
  function Emit(buf: Bytes): (r: seq<Bytes>)
    ensures |r| <= 1
  {
    if buf == [] then [] else [buf]
  }

  /** Whitespace splitting with `cur` the word read so far. */
  function WordsFrom(s: Bytes, cur: Bytes, unicode: bool): seq<Bytes>
    decreases |s|
  {
    if s == [] then Emit(cur)
    else
      var k := WsWidth(s, unicode);
      if k > 0 then Emit(cur) + WordsFrom(s[k..], [], unicode)
      else WordsFrom(s[1..], cur + [s[0]], unicode)
  }

  /** Rust's `str::split_whitespace`: the maximal runs between White_Space characters. */
  function Words(s: Bytes): seq<Bytes> {
    WordsFrom(s, [], true)
  }

  /** Splitting on runs of ASCII whitespace only. */
  function AsciiWords(s: Bytes): seq<Bytes> {
    WordsFrom(s, [], false)
  }

  /** Rust's `str::split(sep)` for an ASCII separator: always at least one
    * piece, empty pieces kept. */
  function Split(s: Bytes, sep: byte): (r: seq<Bytes>)
    ensures |r| >= 1
    decreases |s|
  {
    if s == [] then [[]]
    else
      var rest := Split(s[1..], sep);
      if s[0] == sep then [[]] + rest
      else [[s[0]] + rest[0]] + rest[1..]
  }

  /** Joining the pieces with the separator gives back the input, and no
    * piece contains the separator. */
  lemma {:induction false} SplitJoin(s: Bytes, sep: byte)
    ensures Join(Split(s, sep), sep) == s
    ensures forall i :: 0 <= i < |Split(s, sep)| ==> sep !in Split(s, sep)[i]
    decreases |s|
  {
    if s != [] {
      SplitJoin(s[1..], sep);
      var rest := Split(s[1..], sep);
      if s[0] == sep {
        assert Split(s, sep) == [[]] + rest;
      } else {
        var r := [[s[0]] + rest[0]] + rest[1..];
        assert Split(s, sep) == r;
        assert Join(rest, sep) == if |rest| == 1 then rest[0] else rest[0] + [sep] + Join(rest[1..], sep);
        forall i | 0 <= i < |r| ensures sep !in r[i] {
          if i > 0 { assert r[i] == rest[i]; }
        }
      }
    }
  }

  function Join(parts: seq<Bytes>, sep: byte): Bytes
    requires |parts| >= 1
    decreases |parts|
  {
    if |parts| == 1 then parts[0] else parts[0] + [sep] + Join(parts[1..], sep)
  }

  // ---------------------------------------------------------------------
  // UTF-8

  predicate IsContinuation(b: byte) {
    0x80 <= b <= 0xBF
  }

  /** Well-formed UTF-8 (Table 3-7 of the Unicode Standard), the check
    * behind Rust's `std::str::from_utf8`: no overlong forms, no surrogates,
    * nothing above U+10FFFF. */
  predicate IsUtf8(s: Bytes)
    decreases |s|
  {
    if s == [] then true
    else if s[0] < 0x80 then IsUtf8(s[1..])
    else if 0xC2 <= s[0] <= 0xDF then
      |s| >= 2 && IsContinuation(s[1]) && IsUtf8(s[2..])
    else if s[0] == 0xE0 then
      |s| >= 3 && 0xA0 <= s[1] <= 0xBF && IsContinuation(s[2]) && IsUtf8(s[3..])
    else if 0xE1 <= s[0] <= 0xEC || 0xEE <= s[0] <= 0xEF then
      |s| >= 3 && IsContinuation(s[1]) && IsContinuation(s[2]) && IsUtf8(s[3..])
    else if s[0] == 0xED then
      |s| >= 3 && 0x80 <= s[1] <= 0x9F && IsContinuation(s[2]) && IsUtf8(s[3..])
    else if s[0] == 0xF0 then
      |s| >= 4 && 0x90 <= s[1] <= 0xBF && IsContinuation(s[2]) && IsContinuation(s[3]) && IsUtf8(s[4..])
    else if 0xF1 <= s[0] <= 0xF3 then
      |s| >= 4 && IsContinuation(s[1]) && IsContinuation(s[2]) && IsContinuation(s[3]) && IsUtf8(s[4..])
    else if s[0] == 0xF4 then
      |s| >= 4 && 0x80 <= s[1] <= 0x8F && IsContinuation(s[2]) && IsContinuation(s[3]) && IsUtf8(s[4..])
    else false
  }

  // ---------------------------------------------------------------------
  // Decimal numbers

  predicate IsDigit(b: byte) {
    ZERO <= b <= ZERO + 9
  }

  predicate AllDigits(d: Bytes) {
    forall i :: 0 <= i < |d| ==> IsDigit(d[i])
  }

  /** The value of a string of decimal digits, most significant first. */
  function DigitsValue(d: Bytes): nat
    requires AllDigits(d)
    decreases |d|
  {
    if d == [] then 0 else DigitsValue(d[..|d| - 1]) * 10 + (d[|d| - 1] - ZERO)
  }

  /** Rust's `from_str` for an unsigned integer type whose largest value is
    * `max`: an optional leading `+`, then one or more decimal digits, and a
    * value that fits. Everything else (empty, a lone sign, `-`, another
    * byte, overflow) is an error. */
  function ParseUnsigned(s: Bytes, max: nat): (r: Option<nat>)
    ensures r.Some? ==> r.value <= max
  {
    if s == [] then None
    else
      var digits := if s[0] == PLUS then s[1..] else s;
      if digits == [] || !AllDigits(digits) then None
      else if DigitsValue(digits) <= max then Some(DigitsValue(digits))
      else None
  }

  /** `format!("{}", n)`: the decimal digits of `n`, no sign, no leading zero. */
  function Decimal(n: nat): (r: Bytes)
    ensures |r| >= 1 && AllDigits(r)
    decreases n
  {
    if n < 10 then [ZERO + n] else Decimal(n / 10) + [ZERO + n % 10]
  }

  /** Reading back a formatted number gives the number. */
  lemma {:induction false} DecimalRoundTrip(n: nat)
    ensures DigitsValue(Decimal(n)) == n
    decreases n
  {
    if n >= 10 {
      DecimalRoundTrip(n / 10);
      var d := Decimal(n);
      assert d[..|d| - 1] == Decimal(n / 10);
    }
  }

  /** Formatting then parsing is the identity on every value that fits. */
  lemma DecimalParses(n: nat, max: nat)
    requires n <= max
    ensures ParseUnsigned(Decimal(n), max) == Some(n)
  {
    DecimalRoundTrip(n);
    var d := Decimal(n);
    assert d[0] != PLUS;
  }

  /** Distinct numbers are formatted differently. */
  lemma DecimalInjective(a: nat, b: nat)
    requires Decimal(a) == Decimal(b)
    ensures a == b
  {
    DecimalRoundTrip(a);
    DecimalRoundTrip(b);
  }
}
