/** Byte classification, byte case conversion, integer min/max and
    base-27 column naming (utils.go). */
module Utils {

  /** A Go `byte`. */
  type Byte = b: int | 0 <= b < 256

  /** Go's byte arithmetic wraps modulo 256. */
  function WrapByte(x: int): Byte { x % 256 }

  const ByteA: Byte := 'A' as int
  const ByteX: Byte := 'X' as int
  const ByteZ: Byte := 'Z' as int
  const Bytea: Byte := 'a' as int
  const Bytez: Byte := 'z' as int
  const Byte0: Byte := '0' as int
  const Byte9: Byte := '9' as int

  // ---------------------------------------------------------------------
  // Classification, as written

  /** The source's upper-case test stops at 'X'. */
  predicate IsByteUpperCase(c: Byte) { ByteA <= c <= ByteX }

  predicate IsByteLowerCase(c: Byte) { Bytea <= c <= Bytez }

  predicate IsByteAlphabet(c: Byte) { IsByteUpperCase(c) || IsByteLowerCase(c) }

  predicate IsByteDigit(c: Byte) { Byte0 <= c <= Byte9 }

  /** Letters and digits are disjoint; every accepted upper-case byte has a
      lower-case partner 32 above, but 'y' and 'z' have none accepted below. */
  lemma ClassificationRanges(c: Byte)
    ensures IsByteAlphabet(c) ==> !IsByteDigit(c)
    ensures IsByteUpperCase(c) ==> IsByteLowerCase(c + 32)
    ensures IsByteLowerCase(c) ==> (IsByteUpperCase(c - 32) <==> c <= 'x' as int)
    ensures !IsByteUpperCase('Y' as int) && !IsByteUpperCase('Z' as int)
  {
  }

  // ---------------------------------------------------------------------
  // Case conversion, as written

  /** Upper-case bytes are returned unchanged; a lower-case byte `c` becomes
      `c - 'A' + 'a'` in byte arithmetic; every other byte becomes 0. */
  function ToUpperCaseByte(c: Byte): (r: Byte)
    ensures IsByteUpperCase(c) ==> r == c
    ensures IsByteLowerCase(c) ==> r == c + 32 && 129 <= r <= 154
    ensures !IsByteAlphabet(c) ==> r == 0
  {
    if IsByteUpperCase(c) then c
    else if IsByteLowerCase(c) then WrapByte(c - ByteA + Bytea)
    else 0
  }

  /** Lower-case bytes are returned unchanged; an upper-case byte `c` becomes
      `c + 'A' - 'a'` in byte arithmetic; every other byte becomes 0. */
  function ToLowerCaseByte(c: Byte): (r: Byte)
    ensures IsByteLowerCase(c) ==> r == c
    ensures IsByteUpperCase(c) ==> r == c - 32 && 33 <= r <= 56
    ensures !IsByteAlphabet(c) ==> r == 0
  {
    if IsByteLowerCase(c) then c
    else if IsByteUpperCase(c) then WrapByte(c + ByteA - Bytea)
    else 0
  }

  /** The conversions as written: 'Y' and 'Z' are not upper case, so both
      "convert" to 0; 'a' goes to byte 129 and 'A' to '!'. Neither conversion
      ever produces a letter from a letter of the other case. */
  lemma CaseConversionAsWritten()
    ensures ToUpperCaseByte('Z' as int) == 0 && ToLowerCaseByte('Z' as int) == 0
    ensures ToUpperCaseByte('a' as int) == 129
    ensures ToLowerCaseByte('A' as int) == '!' as int
    ensures forall c: Byte :: IsByteLowerCase(c) ==> !IsByteAlphabet(ToUpperCaseByte(c))
    ensures forall c: Byte :: IsByteUpperCase(c) ==> !IsByteAlphabet(ToLowerCaseByte(c))
  {
  }

  // ---------------------------------------------------------------------
  // Case conversion, as evidently intended

  /** Upper-case letters 'A'..'Z'. */
  predicate IsUpperLetter(c: Byte) { ByteA <= c <= ByteZ }

  /** The corrected test accepts 'Y' and 'Z', and the upper-case letters are
      exactly the lower-case letters moved down by 32. */
  lemma UpperLetterRange(c: Byte)
    ensures IsUpperLetter('Y' as int) && IsUpperLetter('Z' as int)
    ensures c < 224 ==> (IsUpperLetter(c) <==> IsByteLowerCase(c + 32))
  {
  }

  /** Upper-casing: lower-case letters move down by 32, upper-case letters
      stay, other bytes become 0 (the source's convention for non-letters). */
  function ToUpper(c: Byte): (r: Byte)
    ensures IsUpperLetter(c) || IsByteLowerCase(c) ==> IsUpperLetter(r)
    ensures IsUpperLetter(c) ==> r == c
    ensures IsByteLowerCase(c) ==> r == c - 32
  {
    if IsUpperLetter(c) then c
    else if IsByteLowerCase(c) then WrapByte(c - Bytea + ByteA)
    else 0
  }

  /** Lower-casing: upper-case letters move up by 32. */
  function ToLower(c: Byte): (r: Byte)
    ensures IsUpperLetter(c) || IsByteLowerCase(c) ==> IsByteLowerCase(r)
    ensures IsByteLowerCase(c) ==> r == c
    ensures IsUpperLetter(c) ==> r == c + 32
  {
    if IsByteLowerCase(c) then c
    else if IsUpperLetter(c) then WrapByte(c - ByteA + Bytea)
    else 0
  }

  /** The corrected conversions are inverse to each other on letters. */
  lemma CaseRoundTrip(c: Byte)
    ensures IsByteLowerCase(c) ==> ToLower(ToUpper(c)) == c
    ensures IsUpperLetter(c) ==> ToUpper(ToLower(c)) == c
  {
  }

  // ---------------------------------------------------------------------
  // min and max

  function Min(a: int, b: int): (r: int)
    ensures r == a || r == b
    ensures r <= a && r <= b
  {
    if a < b then a else b
  }

  function Max(a: int, b: int): (r: int)
    ensures r == a || r == b
    ensures r >= a && r >= b
  {
    if a > b then a else b
  }

  // ---------------------------------------------------------------------
  // Column naming: base 27 with '@' as the digit zero

  /** The character of base-27 digit `d`: `byte(d) + 'A' - 1`. */
  function DigitChar(d: int): char
    requires 0 <= d < 27
  {
    (d + 64) as char
  }

  /** The digits of `v` in base 27, most significant first; empty when `v <= 0`. */
  function Base27(v: int): string
    decreases v
  {
    if v <= 0 then "" else Base27(v / 27) + [DigitChar(v % 27)]
  }

  /** Reads a string of digit characters back as a number (`ch - 64` per digit). */
  function Base27Value(s: string): int
  {
    if s == [] then 0 else Base27Value(s[..|s| - 1]) * 27 + (s[|s| - 1] as int - 64)
  }

  function Pow27(n: nat): (p: nat)
    ensures p >= 1
  {
    if n == 0 then 1 else 27 * Pow27(n - 1)
  }

  /** numberToString: the loop peels off the least significant digit and
      prepends its character, so the result is the digit string of `value`
      (Base27Shape and Base27RoundTrip say what that string is). */
  method NumberToString(value: int) returns (s: string)
    ensures s == Base27(value)
  {
    s := "";
    var v := value;
    while v > 0
      invariant Base27(v) + s == Base27(value)
      decreases v
    {
      Base27Step(v);
      var digit := v % 27;
      v := v / 27;
      ghost var rest := s;
      s := [DigitChar(digit)] + s;
      assert Base27(v) + s == (Base27(v) + [DigitChar(digit)]) + rest;
    }
    assert Base27(v) == "";
  }

  /** Peeling off the last digit: the quotient is smaller and its digits
      followed by the remainder's digit are the digits of `v`. */
  lemma Base27Step(v: int)
    requires v > 0
    ensures 0 <= v / 27 < v && 0 <= v % 27 < 27
    ensures Base27(v) == Base27(v / 27) + [DigitChar(v % 27)]
  {
  }

  /** Every character is in '@'..'Z', the leading one is never '@', and the
      result is empty exactly for non-positive input. */
  lemma {:induction false} Base27Shape(v: int)
    ensures Base27(v) == "" <==> v <= 0
    ensures forall i :: 0 <= i < |Base27(v)| ==> '@' <= Base27(v)[i] <= 'Z'
    ensures v > 0 ==> Base27(v)[0] != '@'
    decreases v
  {
    if v > 0 {
      Base27Shape(v / 27);
      var s := Base27(v);
      assert s == Base27(v / 27) + [DigitChar(v % 27)];
      if v < 27 {
        assert Base27(v / 27) == "";
        assert s[0] == DigitChar(v);
      } else {
        assert s[0] == Base27(v / 27)[0];
      }
    }
  }

  /** Reading the digits back gives the number. */
  lemma {:induction false} Base27RoundTrip(v: int)
    requires v >= 0
    ensures Base27Value(Base27(v)) == v
    decreases v
  {
    if v > 0 {
      Base27RoundTrip(v / 27);
      var s := Base27(v);
      assert s[..|s| - 1] == Base27(v / 27);
      assert s[|s| - 1] as int - 64 == v % 27;
    }
  }

  /** The result has exactly as many characters as `v` has base-27 digits. */
  lemma {:induction false} Base27Length(v: int)
    requires v > 0
    ensures Pow27(|Base27(v)| - 1) <= v < Pow27(|Base27(v)|)
    decreases v
  {
    var q := v / 27;
    assert |Base27(v)| == |Base27(q)| + 1;
    if q == 0 {
      assert |Base27(v)| == 1;
    } else {
      Base27Length(q);
      var n := |Base27(q)|;
      assert Pow27(n) == 27 * Pow27(n - 1);
      assert Pow27(n + 1) == 27 * Pow27(n);
      assert v == 27 * q + v % 27;
    }
  }

  // ---------------------------------------------------------------------
  // Joining

  /** The parts with `sep` between each two neighbours, as Go's
      `strings.Join` and `bytes.Join` build them. */
  function Join(parts: seq<string>, sep: string): string
  {
    if |parts| == 0 then ""
    else if |parts| == 1 then parts[0]
    else parts[0] + sep + Join(parts[1..], sep)
  }

  /** Joining one more part appends the separator and that part. */
  lemma {:induction false} JoinSnoc(parts: seq<string>, p: string, sep: string)
    requires |parts| >= 1
    ensures Join(parts + [p], sep) == Join(parts, sep) + sep + p
  {
    if |parts| > 1 {
      assert (parts + [p])[1..] == parts[1..] + [p];
      JoinSnoc(parts[1..], p, sep);
    }
  }
}
