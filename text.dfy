/**
 * The JavaScript string operations the panel relies on, written out:
 * `trim`, ASCII `toLowerCase`, `join`, `startsWith`, `replace` with a string
 * pattern, `Number.prototype.toString` on naturals and the `BigInt(string)`
 * conversion.
 */
module Text {
  import opened Common

  /** The characters `String.prototype.trim` removes: ECMAScript WhiteSpace and LineTerminator. */
  predicate IsJsWhitespace(c: char)
  {
    || c == '\t' || c == '\n' || c == '\U{000B}' || c == '\U{000C}' || c == '\r' || c == ' '
    || c == '\U{00A0}' || c == '\U{1680}' || ('\U{2000}' <= c <= '\U{200A}')
    || c == '\U{2028}' || c == '\U{2029}' || c == '\U{202F}' || c == '\U{205F}'
    || c == '\U{3000}' || c == '\U{FEFF}'
  }

  /** Drops the maximal run of leading whitespace. */
  function TrimStart(s: string): (r: string)
    ensures |r| <= |s| && r == s[|s| - |r|..]
    ensures r == [] || !IsJsWhitespace(r[0])
    ensures forall i :: 0 <= i < |s| - |r| ==> IsJsWhitespace(s[i])
  {
    if s != [] && IsJsWhitespace(s[0]) then TrimStart(s[1..]) else s
  }

  /** Drops the maximal run of trailing whitespace. */
  function TrimEnd(s: string): (r: string)
    ensures |r| <= |s| && r == s[..|r|]
    ensures r == [] || !IsJsWhitespace(r[|r| - 1])
    ensures forall i :: |r| <= i < |s| ==> IsJsWhitespace(s[i])
  {
    if s != [] && IsJsWhitespace(s[|s| - 1]) then TrimEnd(s[..|s| - 1]) else s
  }

  /** `String.prototype.trim`. */
  function Trim(s: string): (r: string)
    ensures |r| <= |s|
    ensures r == [] || (!IsJsWhitespace(r[0]) && !IsJsWhitespace(r[|r| - 1]))
  {
    TrimEnd(TrimStart(s))
  }

  /**
   * `trim` removes exactly the surrounding whitespace: the result is a
   * stretch of the input, everything before and after that stretch is
   * whitespace, and the stretch neither starts nor ends with whitespace.
   */
  lemma TrimRemovesSurroundingWhitespace(s: string)
    ensures exists i, j ::
              && 0 <= i <= j <= |s| && Trim(s) == s[i..j]
              && (forall k :: 0 <= k < i ==> IsJsWhitespace(s[k]))
              && (forall k :: j <= k < |s| ==> IsJsWhitespace(s[k]))
    ensures Trim(s) == [] || (!IsJsWhitespace(Trim(s)[0]) && !IsJsWhitespace(Trim(s)[|Trim(s)| - 1]))
  {
    TrimStretch(s);
  }

  /** The stretch `trim` keeps, at the position where the leading whitespace ends. */
  lemma TrimStretch(s: string)
    ensures var i := |s| - |TrimStart(s)|;
      && i + |Trim(s)| <= |s| && Trim(s) == s[i..i + |Trim(s)|]
      && (forall k :: 0 <= k < i ==> IsJsWhitespace(s[k]))
      && (forall k :: i + |Trim(s)| <= k < |s| ==> IsJsWhitespace(s[k]))
  {
    var t := TrimStart(s);
    TrailingWhitespace(s, |s| - |t|, t, TrimEnd(t));
  }

  /** Whitespace after the kept stretch of a suffix is whitespace after that stretch in the text. */
  lemma TrailingWhitespace(s: string, i: nat, t: string, r: string)
    requires i <= |s| && t == s[i..] && |r| <= |t| && r == t[..|r|]
    requires forall m :: |r| <= m < |t| ==> IsJsWhitespace(t[m])
    ensures r == s[i..i + |r|]
    ensures forall k :: i + |r| <= k < |s| ==> IsJsWhitespace(s[k])
  {
    forall k | i + |r| <= k < |s| ensures IsJsWhitespace(s[k]) {
      assert s[k] == t[k - i];
    }
  }

  /** A string that neither starts nor ends with whitespace is left alone by `trim`. */
  lemma TrimKeeps(s: string)
    requires s != [] ==> !IsJsWhitespace(s[0]) && !IsJsWhitespace(s[|s| - 1])
    ensures Trim(s) == s
  {
  }

  /** `toLowerCase` restricted to ASCII letters. */
  function LowerChar(c: char): char
  {
    if 'A' <= c <= 'Z' then (c as int + 32) as char else c
  }

  function Lower(s: string): (r: string)
    ensures |r| == |s|
    ensures forall i :: 0 <= i < |s| ==> r[i] == LowerChar(s[i])
  {
    seq(|s|, i requires 0 <= i < |s| => LowerChar(s[i]))
  }

  /** Lower-casing twice is lower-casing once. */
  lemma LowerIdempotent(s: string)
    ensures Lower(Lower(s)) == Lower(s)
  {
    forall i | 0 <= i < |s| ensures Lower(Lower(s))[i] == Lower(s)[i] {
      var c := s[i];
      if 'A' <= c <= 'Z' {
        assert 'a' <= LowerChar(c) <= 'z';
      }
    }
  }

  /** `Array.prototype.join(sep)` on a list of strings. */
  function Join(xs: seq<string>, sep: string): string
  {
    if xs == [] then "" else if |xs| == 1 then xs[0] else xs[0] + sep + Join(xs[1..], sep)
  }

  /** `startsWith`. */
  predicate StartsWith(s: string, prefix: string)
  {
    |prefix| <= |s| && s[..|prefix|] == prefix
  }

  predicate OccursAt(s: string, pat: string, i: nat)
  {
    i + |pat| <= |s| && s[i..i + |pat|] == pat
  }

  /** `indexOf(pat)` searching from position `i`: the first occurrence, if any. */
  function IndexOfFrom(s: string, pat: string, i: nat): (r: Option<nat>)
    requires i <= |s|
    ensures r.Some? ==> i <= r.value && OccursAt(s, pat, r.value)
    ensures r.Some? ==> forall j :: i <= j < r.value ==> !OccursAt(s, pat, j)
    ensures r.None? ==> forall j :: i <= j ==> !OccursAt(s, pat, j)
    decreases |s| - i
  {
    if i + |pat| > |s| then None
    else if s[i..i + |pat|] == pat then Some(i)
    else IndexOfFrom(s, pat, i + 1)
  }

  /** `String.prototype.replace` with a string pattern: only the first occurrence is replaced. */
  function ReplaceFirst(s: string, pat: string, rep: string): string
  {
    match IndexOfFrom(s, pat, 0)
    case None => s
    case Some(i) => s[..i] + rep + s[i + |pat|..]
  }

  /** When the pattern is a prefix, `replace` swaps exactly that prefix. */
  lemma ReplacePrefix(s: string, pat: string, rep: string)
    requires StartsWith(s, pat)
    ensures ReplaceFirst(s, pat, rep) == rep + s[|pat|..]
  {
    assert OccursAt(s, pat, 0);
    assert IndexOfFrom(s, pat, 0) == Some(0);
  }

  /** The value of a digit character in bases up to 16; 16 for anything else. */
  function DigitValue(c: char): nat
  {
    if '0' <= c <= '9' then c as int - '0' as int
    else if 'a' <= c <= 'f' then c as int - 'a' as int + 10
    else if 'A' <= c <= 'F' then c as int - 'A' as int + 10
    else 16
  }

  predicate AllDigits(s: string, base: nat)
  {
    forall i :: 0 <= i < |s| ==> DigitValue(s[i]) < base
  }

  /** The value of a digit string in the given base, most significant digit first. */
  function ValueIn(s: string, base: nat): nat
    requires AllDigits(s, base)
  {
    if s == [] then 0 else ValueIn(s[..|s| - 1], base) * base + DigitValue(s[|s| - 1])
  }

  function DigitChar(d: nat): char
    requires d < 10
  {
    ('0' as int + d) as char
  }

  /** `n.toString()` for a natural number: its decimal digits. */
  function DecimalString(n: nat): string
  {
    if n < 10 then [DigitChar(n)] else DecimalString(n / 10) + [DigitChar(n % 10)]
  }

  /**
   * The decimal string of a number is a non-empty run of digits, reading it
   * back gives the number, and it has no leading zero: only 0 itself starts
   * with `0`, and it is the one-character string "0".
   */
  lemma {:induction false} DecimalStringValue(n: nat)
    ensures DecimalString(n) != [] && AllDigits(DecimalString(n), 10)
    ensures ValueIn(DecimalString(n), 10) == n
    ensures n == 0 ==> DecimalString(n) == "0"
    ensures n > 0 ==> DecimalString(n)[0] != '0'
  {
    if n < 10 {
      assert DigitValue(DigitChar(n)) == n;
    } else {
      var s := DecimalString(n);
      DecimalStringValue(n / 10);
      assert DigitValue(DigitChar(n % 10)) == n % 10;
      assert s[..|s| - 1] == DecimalString(n / 10);
      assert s[0] == DecimalString(n / 10)[0];
    }
  }

  /** The base named by the letter after a leading `0` (`0x`, `0o`, `0b`); 0 for none. */
  function RadixOf(c: char): nat
  {
    if c == 'x' || c == 'X' then 16
    else if c == 'o' || c == 'O' then 8
    else if c == 'b' || c == 'B' then 2
    else 0
  }

  /**
   * `BigInt(s)` on a string: surrounding whitespace is ignored, the empty
   * string is 0, a decimal integer may carry a sign, and `0x`/`0o`/`0b`
   * literals carry none. `None` is the SyntaxError that `BigInt` throws:
   * in particular, any text that after trimming starts with something other
   * than a sign or a decimal digit is rejected, and only a leading minus
   * gives a negative value.
   */
  function ParseBigInt(s: string): (r: Option<int>)
    ensures Trim(s) == [] ==> r == Some(0)
  {
    var t := Trim(s);
    if t == [] then Some(0)
    else if |t| >= 2 && t[0] == '0' && RadixOf(t[1]) != 0 then
      var digits := t[2..];
      if digits != [] && AllDigits(digits, RadixOf(t[1])) then Some(ValueIn(digits, RadixOf(t[1]))) else None
    else if t[0] == '+' || t[0] == '-' then
      var digits := t[1..];
      if digits != [] && AllDigits(digits, 10)
      then Some(if t[0] == '-' then -(ValueIn(digits, 10) as int) else ValueIn(digits, 10) as int)
      else None
    else if AllDigits(t, 10) then Some(ValueIn(t, 10))
    else None
  }

  /**
   * What `BigInt` accepts: blank text is 0, a run of decimal digits is its
   * value, anything else accepted starts with a sign or a decimal digit, and
   * only a leading minus gives a negative value.
   */
  lemma ParseBigIntCases(s: string)
    ensures Trim(s) != [] && AllDigits(Trim(s), 10) ==> ParseBigInt(s) == Some(ValueIn(Trim(s), 10))
    ensures ParseBigInt(s).Some? && Trim(s) != [] ==> Trim(s)[0] == '+' || Trim(s)[0] == '-' || DigitValue(Trim(s)[0]) < 10
    ensures ParseBigInt(s).Some? && ParseBigInt(s).value < 0 ==> Trim(s)[0] == '-'
  {
  }

  /** A non-empty run of decimal digits reads as its value. */
  lemma ParseDigits(d: string, n: nat)
    requires d != [] && AllDigits(d, 10) && ValueIn(d, 10) == n
    ensures ParseBigInt(d) == Some(n)
  {
    assert DigitValue(d[0]) < 10 && DigitValue(d[|d| - 1]) < 10;
    TrimKeeps(d);
    assert |d| >= 2 ==> DigitValue(d[1]) < 10 && RadixOf(d[1]) == 0;
  }

  /** A minus sign followed by a non-empty run of decimal digits reads as the negated value. */
  lemma ParseNegativeDigits(d: string, n: nat)
    requires d != [] && AllDigits(d, 10) && ValueIn(d, 10) == n
    ensures ParseBigInt("-" + d) == Some(-(n as int))
  {
    var m := "-" + d;
    assert m[1..] == d;
    assert DigitValue(d[|d| - 1]) < 10;
    TrimKeeps(m);
  }

  /** `BigInt(n.toString())` gives `n` back, with or without a minus sign in front. */
  lemma ParseDecimalString(n: nat)
    ensures ParseBigInt(DecimalString(n)) == Some(n)
    ensures ParseBigInt("-" + DecimalString(n)) == Some(-(n as int))
  {
    DecimalStringValue(n);
    ParseDigits(DecimalString(n), n);
    ParseNegativeDigits(DecimalString(n), n);
  }
}
