/** Byte strings, ASCII text and the decimal notation used for integers on the wire. */
module Bytes {
  import opened Wrappers

  type Byte = b: int | 0 <= b < 0x100
  type ByteString = seq<Byte>

  const CR: Byte := 13
  const LF: Byte := 10
  const CRLF: ByteString := [CR, LF]

  /** A string all of whose characters are seven-bit ASCII. */
  predicate IsAscii(s: string) {
    forall i :: 0 <= i < |s| ==> s[i] as int < 0x80
  }

  /** The bytes of an ASCII string, one per character. */
  function Ascii(s: string): (r: ByteString)
    requires IsAscii(s)
    ensures |r| == |s|
    ensures forall i :: 0 <= i < |s| ==> r[i] == s[i] as int
  {
    if s == [] then [] else [s[0] as int as Byte] + Ascii(s[1..])
  }

  predicate IsDigitChar(c: char) {
    '0' <= c <= '9'
  }

  predicate IsDigit(b: Byte) {
    '0' as int <= b <= '9' as int
  }

  predicate AllDigits(s: ByteString) {
    forall i :: 0 <= i < |s| ==> IsDigit(s[i])
  }

  /** `str(n)` for a natural number: its decimal digits, most significant first. */
  function NatText(n: nat): (r: string)
    ensures |r| > 0 && forall i :: 0 <= i < |r| ==> IsDigitChar(r[i])
  {
    if n < 10 then [('0' as int + n) as char]
    else NatText(n / 10) + [('0' as int + n % 10) as char]
  }

  /** `str(i)` for an integer: an optional minus sign, then the digits. */
  function IntText(i: int): (r: string)
    ensures |r| > 0 && IsAscii(r)
  {
    if i < 0 then "-" + NatText(-i) else NatText(i)
  }

  /** `str(i).encode()`: the bytes the protocol uses for lengths and counts. */
  function IntToDecimal(i: int): (r: ByteString)
    ensures |r| > 0
    ensures CR !in r && LF !in r
  {
    var r := Ascii(IntText(i));
    assert forall k :: 0 <= k < |r| ==> r[k] != CR && r[k] != LF by {
      forall k | 0 <= k < |r| ensures r[k] != CR && r[k] != LF {
        assert k == 0 && i < 0 ==> IntText(i)[k] == '-';
        assert k > 0 && i < 0 ==> IntText(i)[k] == NatText(-i)[k - 1];
      }
    }
    r
  }

  /** The value of a string of decimal digits, most significant first. */
  function DigitsValue(s: ByteString): nat
    requires AllDigits(s)
  {
    if s == [] then 0 else DigitsValue(s[..|s| - 1]) * 10 + (s[|s| - 1] - '0' as int)
  }

  /** Python's `int(...)` on a protocol line, restricted to an optional sign followed by
      one or more decimal digits; `None` stands for the `ValueError`. */
  function ParseInt(s: ByteString): (r: Option<int>)
    ensures r.Some? ==> |s| > 0
  {
    if |s| > 0 && (s[0] == '-' as int || s[0] == '+' as int) then
      var d := s[1..];
      if |d| > 0 && AllDigits(d) then
        var v: int := DigitsValue(d);
        Some(if s[0] == '-' as int then -v else v)
      else None
    else if |s| > 0 && AllDigits(s) then Some(DigitsValue(s))
    else None
  }

  lemma {:induction false} DigitsValueOfNatText(n: nat)
    ensures AllDigits(Ascii(NatText(n)))
    ensures DigitsValue(Ascii(NatText(n))) == n
  {
    var s := Ascii(NatText(n));
    if n >= 10 {
      DigitsValueOfNatText(n / 10);
      assert s[..|s| - 1] == Ascii(NatText(n / 10));
    }
  }

  lemma ParseIntDigits(d: ByteString)
    requires |d| > 0 && AllDigits(d)
    ensures ParseInt(d) == Some(DigitsValue(d))
  {
    assert IsDigit(d[0]);
  }

  lemma ParseIntNegative(d: ByteString)
    requires |d| > 0 && AllDigits(d)
    ensures ParseInt([('-' as int) as Byte] + d) == Some(-(DigitsValue(d) as int))
  {
    var s := [('-' as int) as Byte] + d;
    assert s[1..] == d;
  }

  lemma AsciiMinus(t: string)
    requires IsAscii(t)
    ensures IsAscii("-" + t)
    ensures Ascii("-" + t) == [('-' as int) as Byte] + Ascii(t)
  {
    assert ("-" + t)[1..] == t;
  }

  /** Reading back the decimal notation of any integer gives that integer. */
  lemma ParseIntDecimal(i: int)
    ensures ParseInt(IntToDecimal(i)) == Some(i)
  {
    if i < 0 {
      var t := NatText(-i);
      DigitsValueOfNatText(-i);
      AsciiMinus(t);
      assert IntToDecimal(i) == Ascii("-" + t);
      ParseIntNegative(Ascii(t));
    } else {
      DigitsValueOfNatText(i);
      assert IntToDecimal(i) == Ascii(NatText(i));
      ParseIntDigits(Ascii(NatText(i)));
    }
  }
}
