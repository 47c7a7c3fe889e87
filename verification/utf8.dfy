/** Strict UTF-8, the charset the value encoders and the connection use by default. */
module Utf8 {
  import opened Wrappers
  import opened Bytes

  /** The code points a Dafny `char` can hold: Unicode scalar values. */
  predicate IsScalar(cp: int) {
    0 <= cp < 0xD800 || 0xE000 <= cp < 0x11_0000
  }

  predicate IsContinuation(b: Byte) {
    0x80 <= b < 0xC0
  }

  /** The one- to four-byte UTF-8 form of one scalar value. */
  function EncodeScalar(cp: int): (r: ByteString)
    requires IsScalar(cp)
    ensures 1 <= |r| <= 4
  {
    if cp < 0x80 then [cp]
    else if cp < 0x800 then [0xC0 + cp / 0x40, 0x80 + cp % 0x40]
    else if cp < 0x1_0000 then [0xE0 + cp / 0x1000, 0x80 + (cp / 0x40) % 0x40, 0x80 + cp % 0x40]
    else [0xF0 + cp / 0x4_0000, 0x80 + (cp / 0x1000) % 0x40, 0x80 + (cp / 0x40) % 0x40, 0x80 + cp % 0x40]
  }

  /** `s.encode('utf-8')`. */
  function Encode(s: string): ByteString {
    if s == [] then [] else EncodeScalar(s[0] as int) + Encode(s[1..])
  }

  /** Decodes the scalar value at the front of `b` and says how many bytes it occupies;
      `None` for a truncated, overlong, surrogate or out-of-range sequence. */
  function DecodeScalar(b: ByteString): (r: Option<(int, nat)>)
    ensures r.Some? ==> IsScalar(r.value.0) && 1 <= r.value.1 <= |b|
  {
    if |b| == 0 then None
    else if b[0] < 0x80 then Some((b[0], 1))
    else if 0xC0 <= b[0] < 0xE0 then
      if |b| < 2 || !IsContinuation(b[1]) then None
      else
        var cp := (b[0] as int - 0xC0) * 0x40 + (b[1] as int - 0x80);
        if cp < 0x80 then None else Some((cp, 2))
    else if 0xE0 <= b[0] < 0xF0 then
      if |b| < 3 || !IsContinuation(b[1]) || !IsContinuation(b[2]) then None
      else
        var cp := (b[0] as int - 0xE0) * 0x1000 + (b[1] as int - 0x80) * 0x40 + (b[2] as int - 0x80);
        if cp < 0x800 || (0xD800 <= cp < 0xE000) then None else Some((cp, 3))
    else if 0xF0 <= b[0] < 0xF8 then
      if |b| < 4 || !IsContinuation(b[1]) || !IsContinuation(b[2]) || !IsContinuation(b[3]) then None
      else
        var cp := (b[0] as int - 0xF0) * 0x4_0000 + (b[1] as int - 0x80) * 0x1000 + (b[2] as int - 0x80) * 0x40 + (b[3] as int - 0x80);
        if cp < 0x1_0000 || cp >= 0x11_0000 then None else Some((cp, 4))
    else None
  }

  /** `b.decode('utf-8', 'strict')`: `None` stands for the `UnicodeDecodeError`. */
  function Decode(b: ByteString): Option<string>
    decreases |b|
  {
    if b == [] then Some([])
    else match DecodeScalar(b)
      case None => None
      case Some((cp, n)) =>
        match Decode(b[n..])
        case None => None
        case Some(rest) => Some([cp as char] + rest)
  }

  lemma DecodeEncodedScalar(cp: int, rest: ByteString)
    requires IsScalar(cp)
    ensures DecodeScalar(EncodeScalar(cp) + rest) == Some((cp, |EncodeScalar(cp)|))
  {
    if cp < 0x80 {
    } else if cp < 0x800 {
      DecodeEncodedTwo(cp, rest);
    } else if cp < 0x1_0000 {
      DecodeEncodedThree(cp, rest);
    } else {
      DecodeEncodedFour(cp, rest);
    }
  }

  lemma DecodeEncodedTwo(cp: int, rest: ByteString)
    requires 0x80 <= cp < 0x800
    ensures DecodeScalar(EncodeScalar(cp) + rest) == Some((cp, 2))
  {
    var b := EncodeScalar(cp) + rest;
    assert b[0] == 0xC0 + cp / 0x40 && b[1] == 0x80 + cp % 0x40;
    assert (cp / 0x40) * 0x40 + cp % 0x40 == cp;
  }

  lemma DecodeEncodedThree(cp: int, rest: ByteString)
    requires 0x800 <= cp < 0x1_0000 && IsScalar(cp)
    ensures DecodeScalar(EncodeScalar(cp) + rest) == Some((cp, 3))
  {
    var b := EncodeScalar(cp) + rest;
    assert b[0] == 0xE0 + cp / 0x1000 && b[1] == 0x80 + (cp / 0x40) % 0x40 && b[2] == 0x80 + cp % 0x40;
    assert (cp / 0x1000) * 0x40 + (cp / 0x40) % 0x40 == cp / 0x40;
    assert (cp / 0x40) * 0x40 + cp % 0x40 == cp;
  }

  lemma DecodeEncodedFour(cp: int, rest: ByteString)
    requires 0x1_0000 <= cp < 0x11_0000
    ensures DecodeScalar(EncodeScalar(cp) + rest) == Some((cp, 4))
  {
    var b := EncodeScalar(cp) + rest;
    assert b[0] == 0xF0 + cp / 0x4_0000 && b[1] == 0x80 + (cp / 0x1000) % 0x40;
    assert b[2] == 0x80 + (cp / 0x40) % 0x40 && b[3] == 0x80 + cp % 0x40;
    FourParts(cp);
  }

  /** The four-byte form's fields put back together give the code point. */
  lemma FourParts(cp: int)
    requires 0 <= cp
    ensures (cp / 0x4_0000) * 0x4_0000 + ((cp / 0x1000) % 0x40) * 0x1000 + ((cp / 0x40) % 0x40) * 0x40 + cp % 0x40 == cp
  {
    var lo := cp / 0x40;
    var mid := lo / 0x40;
    assert mid == cp / 0x1000;
    assert mid / 0x40 == cp / 0x4_0000;
    assert (mid / 0x40) * 0x40 + mid % 0x40 == mid;
    assert mid * 0x40 + lo % 0x40 == lo;
    assert lo * 0x40 + cp % 0x40 == cp;
  }

  lemma EncodeDecodedScalar(b: ByteString)
    requires DecodeScalar(b).Some?
    ensures var (cp, n) := DecodeScalar(b).value; EncodeScalar(cp) == b[..n]
  {
    if b[0] < 0x80 {
    } else if b[0] < 0xE0 {
      EncodeDecodedTwo(b);
    } else if b[0] < 0xF0 {
      EncodeDecodedThree(b);
    } else {
      EncodeDecodedFour(b);
    }
  }

  lemma EncodeDecodedTwo(b: ByteString)
    requires DecodeScalar(b).Some? && 0xC0 <= b[0] < 0xE0
    ensures var (cp, n) := DecodeScalar(b).value; n == 2 && EncodeScalar(cp) == b[..2]
  {
    var cp := (b[0] as int - 0xC0) * 0x40 + (b[1] as int - 0x80);
    assert DecodeScalar(b).value == (cp, 2);
    assert cp / 0x40 == b[0] - 0xC0 && cp % 0x40 == b[1] - 0x80;
  }

  lemma EncodeDecodedThree(b: ByteString)
    requires DecodeScalar(b).Some? && 0xE0 <= b[0] < 0xF0
    ensures var (cp, n) := DecodeScalar(b).value; n == 3 && EncodeScalar(cp) == b[..3]
  {
    var cp := (b[0] as int - 0xE0) * 0x1000 + (b[1] as int - 0x80) * 0x40 + (b[2] as int - 0x80);
    assert DecodeScalar(b).value == (cp, 3);
    assert cp / 0x40 == (b[0] as int - 0xE0) * 0x40 + (b[1] as int - 0x80) && cp % 0x40 == b[2] - 0x80;
    assert cp / 0x1000 == b[0] - 0xE0;
  }

  lemma EncodeDecodedFour(b: ByteString)
    requires DecodeScalar(b).Some? && 0xF0 <= b[0]
    ensures var (cp, n) := DecodeScalar(b).value; n == 4 && EncodeScalar(cp) == b[..4]
  {
    var cp := (b[0] as int - 0xF0) * 0x4_0000 + (b[1] as int - 0x80) * 0x1000 + (b[2] as int - 0x80) * 0x40 + (b[3] as int - 0x80);
    assert DecodeScalar(b).value == (cp, 4);
    FourFields(b[0] as int - 0xF0, b[1] as int - 0x80, b[2] as int - 0x80, b[3] as int - 0x80);
  }

  /** Splitting a code point assembled from four fields gives the fields back. */
  lemma FourFields(a0: int, a1: int, a2: int, a3: int)
    requires 0 <= a0 && 0 <= a1 < 0x40 && 0 <= a2 < 0x40 && 0 <= a3 < 0x40
    ensures var cp := a0 * 0x4_0000 + a1 * 0x1000 + a2 * 0x40 + a3;
            cp / 0x4_0000 == a0 && (cp / 0x1000) % 0x40 == a1 && (cp / 0x40) % 0x40 == a2 && cp % 0x40 == a3
  {
    var lo := a0 * 0x1000 + a1 * 0x40 + a2;
    var mid := a0 * 0x40 + a1;
    var cp := a0 * 0x4_0000 + a1 * 0x1000 + a2 * 0x40 + a3;
    assert cp == lo * 0x40 + a3;
    assert lo == mid * 0x40 + a2;
    assert cp / 0x40 == lo && cp % 0x40 == a3;
    assert lo / 0x40 == mid && lo % 0x40 == a2;
    assert mid / 0x40 == a0 && mid % 0x40 == a1;
    assert cp / 0x1000 == mid;
    assert cp / 0x4_0000 == a0;
  }

  /** Strict decoding undoes encoding: every text survives the round trip. */
  lemma {:induction false} DecodeEncode(s: string)
    ensures Decode(Encode(s)) == Some(s)
  {
    if s != [] {
      var e := EncodeScalar(s[0] as int);
      DecodeEncodedScalar(s[0] as int, Encode(s[1..]));
      assert (e + Encode(s[1..]))[|e|..] == Encode(s[1..]);
      DecodeEncode(s[1..]);
      var b := e + Encode(s[1..]);
      assert Encode(s) == b;
      assert Decode(b) == Some([(s[0] as int) as char] + s[1..]);
      assert [s[0]] + s[1..] == s;
    }
  }

  lemma DecodeCons(b: ByteString)
    requires b != [] && Decode(b).Some?
    ensures DecodeScalar(b).Some?
    ensures var n := DecodeScalar(b).value.1;
            Decode(b[n..]).Some? && Decode(b) == Some([DecodeScalar(b).value.0 as char] + Decode(b[n..]).value)
  {
  }

  lemma EncodeCons(c: char, t: string)
    ensures Encode([c] + t) == EncodeScalar(c as int) + Encode(t)
  {
    assert ([c] + t)[1..] == t;
  }

  /** Strict decoding accepts only the encodings of texts: whatever it decodes re-encodes
      to the same bytes. */
  lemma {:induction false} EncodeDecode(b: ByteString)
    requires Decode(b).Some?
    ensures Encode(Decode(b).value) == b
    decreases |b|
  {
    if b != [] {
      DecodeCons(b);
      var (cp, n) := DecodeScalar(b).value;
      var tail := Decode(b[n..]).value;
      EncodeDecodedScalar(b);
      EncodeDecode(b[n..]);
      EncodeCons(cp as char, tail);
      assert b == b[..n] + b[n..];
    }
  }

  /** On ASCII text UTF-8 is the one-byte-per-character encoding. */
  lemma {:induction false} EncodeAscii(s: string)
    requires IsAscii(s)
    ensures Encode(s) == Ascii(s)
  {
    if s != [] {
      EncodeAscii(s[1..]);
      assert Ascii(s) == [s[0] as int as Byte] + Ascii(s[1..]);
    }
  }
}
