/** UTF-8, the byte form of okio's `Buffer.writeUtf8` and `Buffer.readUtf8`. */
module Utf8 {

  newtype Byte = b: int | 0 <= b < 0x100

  const REPLACEMENT: char := '\U{fffd}'

  function EncodeChar(c: char): (bytes: seq<Byte>)
    ensures 1 <= |bytes| <= 4
  {
    var n := c as int;
    if n < 0x80 then [n as Byte]
    else if n < 0x800 then [(0xC0 + n / 64) as Byte, Low(n)]
    else if n < 0x10000 then [(0xE0 + n / 4096) as Byte, Low(n / 64), Low(n)]
    else [(0xF0 + n / 262144) as Byte, Low(n / 4096), Low(n / 64), Low(n)]
  }

  /** A tail byte with the six low bits of a code point. */
  function Low(n: nat): Byte { (0x80 + n % 64) as Byte }

  function Encode(s: string): (bytes: seq<Byte>)
  {
    if s == "" then [] else EncodeChar(s[0]) + Encode(s[1..])
  }

  predicate Tail(b: Byte) { 0x80 <= b < 0xC0 }

  /** Which second bytes may follow a lead byte (Table 3-7 of the Unicode Standard). */
  predicate Second(lead: Byte, b: Byte)
  {
    Tail(b)
    && (lead == 0xE0 ==> 0xA0 <= b) && (lead == 0xED ==> b < 0xA0)
    && (lead == 0xF0 ==> 0x90 <= b) && (lead == 0xF4 ==> b < 0x90)
  }

  /** Shifts in the six payload bits of a tail byte. */
  function Shift(high: int, tail: Byte): int { high * 64 + (tail as int - 0x80) }

  /** The first character of a byte sequence and the bytes it takes. A malformed start yields
      U+FFFD for its longest prefix that some well-formed sequence has, or for one byte. */
  function DecodeChar(b: seq<Byte>): (r: (char, nat))
    requires b != []
    ensures 1 <= r.1 <= |b|
  {
    var n := b[0];
    if n < 0x80 then (n as char, 1)
    else if n < 0xC2 || n > 0xF4 || |b| < 2 || !Second(n, b[1]) then (REPLACEMENT, 1)
    else if n < 0xE0 then (Shift(n as int - 0xC0, b[1]) as char, 2)
    else if |b| < 3 || !Tail(b[2]) then (REPLACEMENT, 2)
    else if n < 0xF0 then (Shift(Shift(n as int - 0xE0, b[1]), b[2]) as char, 3)
    else if |b| < 4 || !Tail(b[3]) then (REPLACEMENT, 3)
    else (Shift(Shift(Shift(n as int - 0xF0, b[1]), b[2]), b[3]) as char, 4)
  }

  function Decode(b: seq<Byte>): (s: string)
    ensures s == "" <==> b == []
  {
    if b == [] then "" else
      var (c, n) := DecodeChar(b);
      [c] + Decode(b[n..])
  }

  lemma LowShift(n: nat)
    ensures Tail(Low(n)) && Shift(n / 64, Low(n)) == n
  {
  }

  /** The second byte of a well-formed sequence is one that may follow its lead byte. */
  lemma SecondOk(c: char)
    requires c as int >= 0x800
    ensures Second(EncodeChar(c)[0], EncodeChar(c)[1])
  {
    var n := c as int;
    if n < 0x1000 {
      assert n / 64 % 64 == n / 64;
    } else if 0xD000 <= n < 0xD800 {
      assert n / 64 % 64 == n / 64 - 832;
    } else if 0x10000 <= n < 0x40000 {
      assert n / 4096 % 64 == n / 4096;
    } else if 0x100000 <= n {
      assert n / 4096 % 64 == n / 4096 - 256;
    }
  }

  lemma DecodeThree(c: char, b: seq<Byte>)
    requires 0x800 <= c as int < 0x10000 && EncodeChar(c) <= b
    ensures DecodeChar(b) == (c, 3)
  {
    var n, e := c as int, EncodeChar(c);
    assert b[0] == e[0] && b[1] == e[1] && b[2] == e[2];
    SecondOk(c);
    LowShift(n);
    LowShift(n / 64);
    hide Second, Low, Shift, Tail;
    assert n / 64 / 64 == n / 4096;
  }

  lemma DecodeFour(c: char, b: seq<Byte>)
    requires 0x10000 <= c as int && EncodeChar(c) <= b
    ensures DecodeChar(b) == (c, 4)
  {
    var n, e := c as int, EncodeChar(c);
    assert b[0] == e[0] && b[1] == e[1] && b[2] == e[2] && b[3] == e[3];
    SecondOk(c);
    LowShift(n);
    LowShift(n / 64);
    LowShift(n / 4096);
    hide Second, Low, Shift, Tail;
    assert n / 64 / 64 == n / 4096 && n / 4096 / 64 == n / 262144;
  }

  lemma DecodeShort(c: char, b: seq<Byte>)
    requires c as int < 0x800 && EncodeChar(c) <= b
    ensures DecodeChar(b) == (c, |EncodeChar(c)|)
  {
    var n, e := c as int, EncodeChar(c);
    assert b[0] == e[0] && (n >= 0x80 ==> b[1] == e[1]);
    LowShift(n);
    hide Low, Shift;
  }

  lemma DecodeCharEncode(c: char, rest: seq<Byte>)
    ensures DecodeChar(EncodeChar(c) + rest) == (c, |EncodeChar(c)|)
  {
    var b := EncodeChar(c) + rest;
    assert EncodeChar(c) <= b;
    hide DecodeChar;
    if c as int < 0x800 {
      DecodeShort(c, b);
    } else if c as int < 0x10000 {
      DecodeThree(c, b);
    } else {
      DecodeFour(c, b);
    }
  }

  lemma DecodeStep(b: seq<Byte>)
    requires b != []
    ensures Decode(b) == [DecodeChar(b).0] + Decode(b[DecodeChar(b).1..])
  {
    hide DecodeChar;
  }

  /** Decoding undoes encoding, whatever bytes follow. */
  lemma {:induction false} DecodeEncode(s: string, rest: seq<Byte>)
    ensures Decode(Encode(s) + rest) == s + Decode(rest)
  {
    hide EncodeChar, DecodeChar, Decode;
    if s == "" {
      assert Encode(s) + rest == rest;
      assert s + Decode(rest) == Decode(rest);
    } else {
      var e, more := EncodeChar(s[0]), Encode(s[1..]) + rest;
      var b := e + more;
      assert Encode(s) + rest == b;
      DecodeCharEncode(s[0], more);
      assert b[|e|..] == more;
      DecodeStep(b);
      DecodeEncode(s[1..], rest);
      assert s + Decode(rest) == [s[0]] + (s[1..] + Decode(rest));
    }
  }

  lemma RoundTrip(s: string)
    ensures Decode(Encode(s)) == s
  {
    DecodeEncode(s, []);
    assert Encode(s) + [] == Encode(s);
  }

  lemma EncodeEmpty()
    ensures Encode("") == []
  {
  }

  lemma EncodeSingle(c: char)
    ensures Encode([c]) == EncodeChar(c)
  {
  }

  lemma {:induction false} EncodeConcat(a: string, b: string)
    ensures Encode(a + b) == Encode(a) + Encode(b)
  {
    if a == "" {
      assert a + b == b;
    } else {
      assert (a + b)[1..] == a[1..] + b;
      EncodeConcat(a[1..], b);
    }
  }
}
