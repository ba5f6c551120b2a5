/**
 * The string primitives of Go's standard library that the client's decisions
 * rest on: strings.TrimSpace, strings.ToLower (as far as comparisons with
 * ASCII words can tell), strconv.Atoi, len() in bytes and strings.Repeat.
 * Strings are sequences of Unicode scalar values.
 */
module Text {
  import opened Wrappers

  /** unicode.IsSpace: the Latin-1 spaces and the Unicode White_Space runes above Latin-1. */
  predicate IsSpace(c: char) {
    var n := c as int;
    (0x09 <= n <= 0x0D) || n == 0x20 || n == 0x85 || n == 0xA0 || n == 0x1680 ||
    (0x2000 <= n <= 0x200A) || n == 0x2028 || n == 0x2029 || n == 0x202F || n == 0x205F || n == 0x3000
  }

  predicate AllSpace(s: string) {
    forall i :: 0 <= i < |s| ==> IsSpace(s[i])
  }

  /** What remains of `s` after its leading white space. */
  function DropLeadingSpace(s: string): (r: string)
    ensures |r| <= |s| && r == s[|s| - |r|..]
    ensures r != [] ==> !IsSpace(r[0])
    ensures AllSpace(s[..|s| - |r|])
  {
    if s != [] && IsSpace(s[0]) then DropLeadingSpace(s[1..]) else s
  }

  /** What remains of `s` after its trailing white space. */
  function DropTrailingSpace(s: string): (r: string)
    ensures |r| <= |s| && r == s[..|r|]
    ensures r != [] ==> !IsSpace(r[|r| - 1])
    ensures AllSpace(s[|r|..])
  {
    if s != [] && IsSpace(s[|s| - 1]) then DropTrailingSpace(s[..|s| - 1]) else s
  }

  /** Only a string of white space trims down to nothing. */
  lemma TrimmedEmpty(s: string)
    ensures DropTrailingSpace(DropLeadingSpace(s)) == [] <==> AllSpace(s)
  {
    var left := DropLeadingSpace(s);
    var k := |s| - |left|;
    if DropTrailingSpace(left) == [] {
      assert AllSpace(left[0..]);
      assert left == [];
      assert s[..k] == s;
    }
  }

  /** strings.TrimSpace. */
  function TrimSpace(s: string): (r: string)
    ensures r != [] ==> !IsSpace(r[0]) && !IsSpace(r[|r| - 1])
    ensures r == [] <==> AllSpace(s)
  {
    TrimmedEmpty(s);
    DropTrailingSpace(DropLeadingSpace(s))
  }

  /** A string without white space at either end is its own trimmed form. */
  lemma {:induction false} TrimSpaceKeepsTrimmed(s: string)
    requires s != [] ==> !IsSpace(s[0]) && !IsSpace(s[|s| - 1])
    ensures TrimSpace(s) == s
  {
    assert DropLeadingSpace(s) == s;
    assert DropTrailingSpace(s) == s;
  }

  /** Trimming twice trims no more than trimming once. */
  lemma TrimSpaceIdempotent(s: string)
    ensures TrimSpace(TrimSpace(s)) == TrimSpace(s)
  {
    TrimSpaceKeepsTrimmed(TrimSpace(s));
  }

  /**
   * The lower case of one rune, agreeing with Go's unicode.ToLower on every
   * rune whose lower case is ASCII: 'A'..'Z', U+0130 (dotted capital I) and
   * U+212A (Kelvin sign). Every other rune is left alone; Go maps some of
   * them to other non-ASCII runes, which cannot change whether the lowered
   * string equals an ASCII word.
   */
  function LowerRune(c: char): char {
    if 'A' <= c <= 'Z' then (c as int + 32) as char
    else if c == '\U{0130}' then 'i'
    else if c == '\U{212A}' then 'k'
    else c
  }

  function Lower(s: string): string {
    seq(|s|, i requires 0 <= i < |s| => LowerRune(s[i]))
  }

  predicate IsDigit(c: char) {
    '0' <= c <= '9'
  }

  predicate IsDigits(s: string) {
    s != [] && forall i :: 0 <= i < |s| ==> IsDigit(s[i])
  }

  /** The value of a run of decimal digits, most significant first. */
  function DigitsValue(s: string): nat
    requires IsDigits(s)
    decreases |s|
  {
    var last := s[|s| - 1] as int - '0' as int;
    if |s| == 1 then last else 10 * DigitsValue(s[..|s| - 1]) + last
  }

  const MinInt64: int := -0x8000_0000_0000_0000
  const MaxInt64: int := 0x7FFF_FFFF_FFFF_FFFF

  /**
   * strconv.Atoi on a 64-bit platform: an optional '+' or '-', then one or
   * more decimal digits and nothing else (no spaces, no underscores); a value
   * outside the int64 range is an error.
   */
  function Atoi(s: string): (r: Option<int>)
    ensures r.Some? ==> MinInt64 <= r.value <= MaxInt64
    ensures r.Some? ==> s != [] && !IsSpace(s[0]) && !IsSpace(s[|s| - 1])
    ensures r.Some? && 0 < r.value ==> s[0] != '-'
  {
    var signed := s != [] && (s[0] == '+' || s[0] == '-');
    var digits := if signed then s[1..] else s;
    if !IsDigits(digits) then None
    else
      var v: int := DigitsValue(digits);
      var n := if signed && s[0] == '-' then -v else v;
      if MinInt64 <= n <= MaxInt64 then Some(n) else None
  }

  /** The decimal spelling of a natural number (strconv.Itoa). */
  function Decimal(n: nat): (s: string)
    ensures IsDigits(s)
  {
    var d := ['0' + (n % 10) as char];
    if n < 10 then d else Decimal(n / 10) + d
  }

  lemma {:induction false} DecimalValue(n: nat)
    ensures DigitsValue(Decimal(n)) == n
  {
    if n >= 10 {
      var s := Decimal(n);
      DecimalValue(n / 10);
      assert s[..|s| - 1] == Decimal(n / 10);
    }
  }

  /** Atoi reads back what Itoa writes, over the whole non-negative int64 range. */
  lemma AtoiDecimal(n: nat)
    requires n <= MaxInt64
    ensures Atoi(Decimal(n)) == Some(n)
  {
    DecimalValue(n);
  }

  /** Bytes in the UTF-8 encoding of one rune. */
  function RuneLen(c: char): nat {
    if c as int < 0x80 then 1 else if c as int < 0x800 then 2 else if c as int < 0x10000 then 3 else 4
  }

  /** len(s) in Go: the number of bytes of the UTF-8 encoding. */
  function Utf8Len(s: string): (n: nat)
    ensures n >= |s|
    ensures n == |s| <==> forall i :: 0 <= i < |s| ==> s[i] as int < 0x80
  {
    if s == [] then 0
    else
      var n := RuneLen(s[0]) + Utf8Len(s[1..]);
      assert forall i :: 1 <= i < |s| ==> s[i] == s[1..][i - 1];
      n
  }

  /** strings.Repeat of a one-rune string. */
  function Repeat(c: char, n: nat): (r: string)
    ensures |r| == n && forall i :: 0 <= i < n ==> r[i] == c
  {
    seq(n, _ => c)
  }
}
