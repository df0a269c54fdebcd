/** Text helpers the client relies on implicitly: the decimal rendering that a
    template literal applies to an integer, JavaScript's `parseInt(s, 10)`,
    ASCII lower-casing and `startsWith`. Each rendering comes with its reader,
    and the round trip between the two is proved. */
module Text {
  import opened Wrappers

  predicate IsDigit(c: char) {
    '0' <= c <= '9'
  }

  predicate AllDigits(s: string) {
    forall i :: 0 <= i < |s| ==> IsDigit(s[i])
  }

  function DigitChar(d: nat): (c: char)
    requires d < 10
    ensures IsDigit(c)
  {
    "0123456789"[d]
  }

  function DigitValue(c: char): (d: nat)
    requires IsDigit(c)
    ensures d < 10
  {
    c as int - '0' as int
  }

  lemma DigitValueOfDigitChar(d: nat)
    requires d < 10
    ensures DigitValue(DigitChar(d)) == d
  {
  }

  /** `${n}` for a non-negative integer: its decimal digits, no leading zero. */
  function NatToString(n: nat): (s: string)
    ensures |s| >= 1 && AllDigits(s)
    ensures (s[0] == '0') <==> n == 0
    ensures n < 10 <==> |s| == 1
    decreases n
  {
    if n < 10 then [DigitChar(n)] else NatToString(n / 10) + [DigitChar(n % 10)]
  }

  /** The value of a string of decimal digits (the empty string reads as 0). */
  function ParseDigits(s: string): (n: nat)
    requires AllDigits(s)
    decreases |s|
  {
    if s == [] then 0 else ParseDigits(s[..|s| - 1]) * 10 + DigitValue(s[|s| - 1])
  }

  lemma {:induction false} ParseDigitsOfNatToString(n: nat)
    ensures ParseDigits(NatToString(n)) == n
    decreases n
  {
    if n < 10 {
      DigitValueOfDigitChar(n);
    } else {
      var s := NatToString(n);
      assert s == NatToString(n / 10) + [DigitChar(n % 10)];
      assert s[..|s| - 1] == NatToString(n / 10);
      ParseDigitsOfNatToString(n / 10);
      DigitValueOfDigitChar(n % 10);
    }
  }

  /** Length of the longest all-digit prefix of `s`. */
  function DigitPrefixLength(s: string): (k: nat)
    ensures k <= |s| && AllDigits(s[..k])
    ensures k < |s| ==> !IsDigit(s[k])
    decreases |s|
  {
    if s == [] || !IsDigit(s[0]) then 0 else 1 + DigitPrefixLength(s[1..])
  }

  /** A string that cannot extend a number read just before it. */
  predicate EndsNumber(rest: string) {
    rest == [] || !IsDigit(rest[0])
  }

  lemma {:induction false} DigitPrefixOfDigits(digits: string, rest: string)
    requires AllDigits(digits) && EndsNumber(rest)
    ensures DigitPrefixLength(digits + rest) == |digits|
    decreases |digits|
  {
    if digits != [] {
      assert (digits + rest)[1..] == digits[1..] + rest;
      DigitPrefixOfDigits(digits[1..], rest);
    }
  }

  /** Reads a leading decimal number: its value and the text after it. */
  function ReadNumber(s: string): (r: Option<(nat, string)>)
    ensures r.None? <==> (s == [] || !IsDigit(s[0]))
    ensures r.Some? ==> |r.value.1| < |s| && EndsNumber(r.value.1)
  {
    var k := DigitPrefixLength(s);
    if k == 0 then None else Some((ParseDigits(s[..k]), s[k..]))
  }

  lemma ReadNumberOfNatToString(n: nat, rest: string)
    requires EndsNumber(rest)
    ensures ReadNumber(NatToString(n) + rest) == Some((n, rest))
  {
    var s := NatToString(n);
    DigitPrefixOfDigits(s, rest);
    assert (s + rest)[..|s|] == s;
    assert (s + rest)[|s|..] == rest;
    ParseDigitsOfNatToString(n);
  }

  /** The characters `parseInt` skips before the number (the ASCII subset of
      JavaScript's white space and line terminators). */
  predicate IsJsSpace(c: char) {
    c == ' ' || c == '\t' || c == '\n' || c == '\r' || c == '\U{000B}' || c == '\U{000C}'
  }

  function TrimStart(s: string): (t: string)
    ensures |t| <= |s| && t == s[|s| - |t|..]
    ensures t == [] || !IsJsSpace(t[0])
    decreases |s|
  {
    if s != [] && IsJsSpace(s[0]) then TrimStart(s[1..]) else s
  }

  /** `parseInt(s, 10)`: skips leading white space, takes an optional sign and
      the longest run of digits after it, ignores whatever follows; `NaN`
      (here `None`) when there is no digit. */
  function ParseInt(s: string): (r: Option<int>)
    ensures r.None? <==> ReadNumber(UnsignedPart(TrimStart(s))).None?
  {
    var t := TrimStart(s);
    var negative := t != [] && t[0] == '-';
    match ReadNumber(UnsignedPart(t))
    case None => None
    case Some((n, _)) =>
      var v: int := if negative then 0 - n as int else n;
      Some(v)
  }

  /** The text after an optional leading sign. */
  function UnsignedPart(t: string): (u: string)
    ensures |u| <= |t|
  {
    if t != [] && (t[0] == '-' || t[0] == '+') then t[1..] else t
  }

  /** Text that starts with a digit parses as the number it starts with. */
  lemma ParseIntOfDigits(t: string)
    requires t != [] && IsDigit(t[0])
    ensures ReadNumber(t).Some? && ParseInt(t) == Some(ReadNumber(t).value.0 as int)
  {
    assert !IsJsSpace(t[0]);
    assert TrimStart(t) == t;
    assert UnsignedPart(t) == t;
  }

  lemma ParseIntOfNatToString(n: nat, rest: string)
    requires EndsNumber(rest)
    ensures ParseInt(NatToString(n) + rest) == Some(n)
  {
    var s := NatToString(n) + rest;
    assert s[0] == NatToString(n)[0];
    ReadNumberOfNatToString(n, rest);
    ParseIntOfDigits(s);
  }

  /** A minus sign followed by digits parses as the negated number. */
  lemma ParseIntOfMinus(t: string)
    requires t != [] && IsDigit(t[0])
    ensures ReadNumber(t).Some? && ParseInt("-" + t) == Some(0 - ReadNumber(t).value.0 as int)
  {
    var s := "-" + t;
    assert s[0] == '-' && !IsJsSpace(s[0]);
    assert TrimStart(s) == s;
    assert UnsignedPart(s) == t;
  }

  lemma ParseIntOfNegative(n: nat)
    ensures ParseInt("-" + NatToString(n)) == Some(-(n as int))
  {
    var t := NatToString(n);
    ReadNumberOfNatToString(n, []);
    assert t + [] == t;
    assert ReadNumber(t) == Some((n, []));
    ParseIntOfMinus(t);
    assert ParseInt("-" + t) == Some(0 - n as int);
  }

  /** ASCII `toLowerCase`: upper-case Latin letters map to lower case, every
      other character is kept. */
  function ToLowerChar(c: char): (d: char)
    ensures 'A' <= c <= 'Z' ==> d as int == c as int + 32
    ensures !('A' <= c <= 'Z') ==> d == c
  {
    if 'A' <= c <= 'Z' then (c as int + 32) as char else c
  }

  function ToLower(s: string): (t: string)
    ensures |t| == |s|
    ensures forall i :: 0 <= i < |s| ==> t[i] == ToLowerChar(s[i])
  {
    seq(|s|, i requires 0 <= i < |s| => ToLowerChar(s[i]))
  }

  lemma ToLowerIdempotent(s: string)
    ensures ToLower(ToLower(s)) == ToLower(s)
  {
  }

  predicate StartsWith(s: string, prefix: string) {
    |prefix| <= |s| && s[..|prefix|] == prefix
  }
}
