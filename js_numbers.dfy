/**
 * The JavaScript number conversions the two score-keepers rely on:
 * `parseInt(text)` (no radix), `Number.prototype.toString()` on a
 * non-negative integer, and the `parseInt(text) || fallback` idiom.
 * Both keypads only ever build strings of decimal digits; the lemmas
 * at the end connect `parseInt` on such strings to their decimal value.
 */
module JsNumbers {
  import opened Options

  predicate IsDigit(c: char) { '0' <= c <= '9' }

  predicate IsDigitString(s: string) { forall i :: 0 <= i < |s| ==> IsDigit(s[i]) }

  function DigitValue(c: char): (d: nat)
    requires IsDigit(c)
    ensures d < 10
  {
    c as int - '0' as int
  }

  function DigitChar(d: nat): (c: char)
    requires d < 10
    ensures IsDigit(c) && DigitValue(c) == d
  {
    ('0' as int + d) as char
  }

  /** The decimal value of a digit string, most significant digit first. */
  function DigitsValue(s: string): nat
    requires IsDigitString(s)
  {
    if s == [] then 0 else DigitsValue(s[..|s| - 1]) * 10 + DigitValue(s[|s| - 1])
  }

  function Pow10(k: nat): (p: nat)
    ensures p >= 1
  {
    if k == 0 then 1 else 10 * Pow10(k - 1)
  }

  /**
   * `n.toString()` for a non-negative integer: the shortest decimal
   * spelling, without a leading zero, which reads back as `n`.
   */
  function NatToString(n: nat): (s: string)
    ensures IsDigitString(s) && 1 <= |s|
    ensures DigitsValue(s) == n
    ensures |s| > 1 ==> s[0] != '0'
    ensures n == 0 <==> s == "0"
  {
    if n < 10 then [DigitChar(n)]
    else
      var s := NatToString(n / 10) + [DigitChar(n % 10)];
      assert s[..|s| - 1] == NatToString(n / 10);
      s
  }

  /** A digit string that does not start with `0` has a positive value. */
  lemma {:induction false} LeadingDigitPositive(s: string)
    requires IsDigitString(s) && s != [] && s[0] != '0'
    ensures DigitsValue(s) > 0
  {
    if |s| > 1 {
      LeadingDigitPositive(s[..|s| - 1]);
    }
  }

  /** A number below 10^k is spelled with at most k characters. */
  lemma {:induction false} NatToStringLength(n: nat, k: nat)
    requires 1 <= k && n < Pow10(k)
    ensures |NatToString(n)| <= k
  {
    if n >= 10 {
      assert k >= 2;
      assert n / 10 < Pow10(k - 1);
      NatToStringLength(n / 10, k - 1);
    }
  }

  /** A digit string of at most k characters stands for a number below 10^k. */
  lemma {:induction false} DigitsBelow(s: string, k: nat)
    requires IsDigitString(s) && |s| <= k
    ensures DigitsValue(s) < Pow10(k)
  {
    if s != [] {
      DigitsBelow(s[..|s| - 1], k - 1);
      assert DigitsValue(s[..|s| - 1]) * 10 <= (Pow10(k - 1) - 1) * 10;
    }
  }

  /** The characters JavaScript's `parseInt` skips before the number (white space and line terminators). */
  predicate IsJsWhitespace(c: char) {
    var u := c as int;
    u == 0x20 || 0x09 <= u <= 0x0D || u == 0xA0 || u == 0x1680 || 0x2000 <= u <= 0x200A
    || u == 0x2028 || u == 0x2029 || u == 0x202F || u == 0x205F || u == 0x3000 || u == 0xFEFF
  }

  function TrimStart(s: string): (t: string)
    ensures |t| <= |s| && t == s[|s| - |t|..]
    ensures t == [] || !IsJsWhitespace(t[0])
  {
    if s != [] && IsJsWhitespace(s[0]) then TrimStart(s[1..]) else s
  }

  /** The length of the leading run of decimal digits. */
  function DigitRun(s: string): (n: nat)
    ensures n <= |s| && IsDigitString(s[..n])
    ensures n < |s| ==> !IsDigit(s[n])
  {
    if s != [] && IsDigit(s[0]) then
      var n := 1 + DigitRun(s[1..]);
      assert s[..n] == [s[0]] + s[1..][..n - 1];
      n
    else 0
  }

  predicate IsHexDigit(c: char) { IsDigit(c) || 'a' <= c <= 'f' || 'A' <= c <= 'F' }

  predicate IsHexString(s: string) { forall i :: 0 <= i < |s| ==> IsHexDigit(s[i]) }

  function HexDigitValue(c: char): (d: nat)
    requires IsHexDigit(c)
    ensures d < 16
  {
    if IsDigit(c) then DigitValue(c)
    else if 'a' <= c <= 'f' then c as int - 'a' as int + 10
    else c as int - 'A' as int + 10
  }

  function HexValue(s: string): nat
    requires IsHexString(s)
  {
    if s == [] then 0 else HexValue(s[..|s| - 1]) * 16 + HexDigitValue(s[|s| - 1])
  }

  /** The length of the leading run of hexadecimal digits. */
  function HexRun(s: string): (n: nat)
    ensures n <= |s| && IsHexString(s[..n])
    ensures n < |s| ==> !IsHexDigit(s[n])
  {
    if s != [] && IsHexDigit(s[0]) then
      var n := 1 + HexRun(s[1..]);
      assert s[..n] == [s[0]] + s[1..][..n - 1];
      n
    else 0
  }

  /**
   * `parseInt(s)` without a radix: skip leading white space, take an
   * optional sign, read hexadecimal after a `0x`/`0X` prefix and decimal
   * otherwise, stop at the first character that is not a digit; `None`
   * stands for NaN (no digit at all).
   */
  function ParseInt(s: string): (r: Option<int>)
    ensures TrimStart(s) == [] ==> r == None
    ensures r.Some? && r.value < 0 ==> TrimStart(s)[0] == '-'
  {
    var t := TrimStart(s);
    var negative := t != [] && t[0] == '-';
    var u := if t != [] && (t[0] == '-' || t[0] == '+') then t[1..] else t;
    var magnitude: Option<int> :=
      if |u| >= 2 && u[0] == '0' && (u[1] == 'x' || u[1] == 'X') then
        var h := HexRun(u[2..]);
        if h == 0 then None else Some(HexValue(u[2..][..h]))
      else
        var d := DigitRun(u);
        if d == 0 then None else Some(DigitsValue(u[..d]));
    match magnitude
    case None => None
    case Some(m) => Some(if negative then -m else m)
  }

  /** `parseInt(s) || fallback`: NaN and 0 are both falsy. */
  function OrFallback(r: Option<int>, fallback: int): (v: int)
    ensures v == 0 ==> fallback == 0
    ensures r == None || r == Some(0) ==> v == fallback
    ensures r.Some? && r.value != 0 ==> v == r.value
  {
    match r
    case None => fallback
    case Some(v) => if v == 0 then fallback else v
  }

  lemma {:induction false} DigitRunOfDigits(s: string)
    requires IsDigitString(s)
    ensures DigitRun(s) == |s|
  {
    if s != [] {
      DigitRunOfDigits(s[1..]);
    }
  }

  /** On a non-empty digit string, `parseInt` gives exactly its decimal value. */
  lemma ParseIntOfDigits(s: string)
    requires IsDigitString(s) && s != []
    ensures ParseInt(s) == Some(DigitsValue(s))
  {
    assert !IsJsWhitespace(s[0]);
    assert TrimStart(s) == s;
    assert |s| >= 2 ==> s[1] != 'x' && s[1] != 'X';
    DigitRunOfDigits(s);
    assert s[..|s|] == s;
  }

  /** Round trip: `parseInt(n.toString()) == n` for every non-negative integer. */
  lemma ParseIntOfNatToString(n: nat)
    ensures ParseInt(NatToString(n)) == Some(n)
  {
    ParseIntOfDigits(NatToString(n));
  }
}
