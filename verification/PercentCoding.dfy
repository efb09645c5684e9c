/** `HttpUrl.canonicalize` and `HttpUrl.percentDecode`: their meaning on whole strings, the
    buffer-filling loops with their fast paths, and the laws that tie the two together. */
module PercentCoding {
  import opened Text
  import opened Utf8

  const HEX_DIGITS: string := "0123456789ABCDEF"

  /** The flags of one `canonicalize` call. */
  datatype Mode = Mode(encodeSet: string, alreadyEncoded: bool, strict: bool,
                       plusIsSpace: bool, asciiOnly: bool)

  // ---------------------------------------------------------------- hex

  function HexValue(c: char): (d: int)
    ensures -1 <= d < 16
  {
    if '0' <= c <= '9' then c as int - '0' as int
    else if 'a' <= c <= 'f' then c as int - 'a' as int + 10
    else if 'A' <= c <= 'F' then c as int - 'A' as int + 10
    else -1
  }

  predicate IsHex(c: char) { HexValue(c) != -1 }

  function HexDigit(d: nat): (c: char)
    requires d < 16
    ensures HexValue(c) == d && c != '%' && c != '+'
  {
    HEX_DIGITS[d]
  }

  /** `percentEncoded` at the front of a string. */
  predicate PercentEncoded(s: string)
  {
    |s| > 2 && s[0] == '%' && IsHex(s[1]) && IsHex(s[2])
  }

  // ---------------------------------------------------------------- canonicalize

  /** A tab or a line end. */
  predicate IsBreak(c: char) { c in "\t\n\U{0c}\r" }

  predicate Skipped(m: Mode, c: char)
  {
    m.alreadyEncoded && (c == '\t' || c == '\n' || c == '\U{0c}' || c == '\r')
  }

  /** Whether the first character of `s` must be escaped. */
  predicate MustEscape(m: Mode, s: string)
    requires s != ""
  {
    var c := s[0];
    || c < ' ' || c == '\U{7f}' || (c >= '\U{80}' && m.asciiOnly)
    || c in m.encodeSet
    || (c == '%' && (!m.alreadyEncoded || (m.strict && !PercentEncoded(s))))
  }

  function EscapeBytes(bytes: seq<Byte>): (s: string)
  {
    if bytes == [] then ""
    else ['%', HexDigit((bytes[0] / 16) as int), HexDigit((bytes[0] % 16) as int)] + EscapeBytes(bytes[1..])
  }

  function Escape(c: char): (s: string) { EscapeBytes(EncodeChar(c)) }

  /** What `canonicalize` writes for the first character of `s`. */
  function CanonChar(m: Mode, s: string): (r: string)
    requires s != ""
  {
    if Skipped(m, s[0]) then ""
    else if s[0] == '+' && m.plusIsSpace then if m.alreadyEncoded then "+" else "%2B"
    else if MustEscape(m, s) then Escape(s[0])
    else [s[0]]
  }

  function Canon(m: Mode, s: string): (r: string)
  {
    if s == "" then "" else CanonChar(m, s) + Canon(m, s[1..])
  }

  /** The inner loop: drain the bytes of one character as escapes. */
  method WriteEscapes(out0: seq<Byte>, bytes0: seq<Byte>) returns (out: seq<Byte>)
    ensures out == out0 + Encode(EscapeBytes(bytes0))
  {
    hide EncodeChar, Encode, HexDigit;
    EncodeEmpty();
    out := out0;
    var bytes := bytes0;
    ghost var done := "";
    while bytes != []
      invariant out == out0 + Encode(done)
      invariant done + EscapeBytes(bytes) == EscapeBytes(bytes0)
      decreases |bytes|
    {
      var h, l := HexDigit((bytes[0] / 16) as int), HexDigit((bytes[0] % 16) as int);
      EncodeConcat(done, ['%', h, l]);
      AsciiTriple(h, l);
      out := out + ['%' as Byte, h as Byte, l as Byte];
      done := done + ['%', h, l];
      bytes := bytes[1..];
    }
    assert done == EscapeBytes(bytes0);
  }

  lemma CanonEmpty(m: Mode)
    ensures Canon(m, "") == ""
  {
  }

  lemma CanonStep(m: Mode, input: string, i: nat, limit: nat)
    requires i < limit <= |input|
    ensures Canon(m, input[i..limit]) == CanonChar(m, input[i..limit]) + Canon(m, input[i + 1..limit])
  {
  }

  /** The slow path: append the canonical form of `input[pos..limit]` to a byte buffer. */
  method CanonicalizeInto(out0: seq<Byte>, input: string, pos: nat, limit: nat, m: Mode)
    returns (out: seq<Byte>)
    requires pos <= limit <= |input|
    ensures out == out0 + Encode(Canon(m, input[pos..limit]))
  {
    hide EncodeChar, Encode, EscapeBytes, PercentEncoded, Canon;
    CanonEmpty(m);
    out := out0;
    var i := pos;
    ghost var done := "";
    EncodeEmpty();
    while i < limit
      invariant pos <= i <= limit
      invariant out == out0 + Encode(done)
      invariant done + Canon(m, input[i..limit]) == Canon(m, input[pos..limit])
    {
      ghost var piece := CanonChar(m, input[i..limit]);
      CanonStep(m, input, i, limit);
      var c := input[i];
      if m.alreadyEncoded && (c == '\t' || c == '\n' || c == '\U{0c}' || c == '\r') {
        // Skip this character.
        assert piece == "";
      } else if c == '+' && m.plusIsSpace {
        out := out + Encode(if m.alreadyEncoded then "+" else "%2B");
      } else if c < ' ' || c == '\U{7f}' || (c >= '\U{80}' && m.asciiOnly) || c in m.encodeSet
        || (c == '%' && (!m.alreadyEncoded || (m.strict && !PercentEncoded(input[i..limit])))) {
        out := WriteEscapes(out, EncodeChar(c));
      } else {
        EncodeSingle(c);
        out := out + EncodeChar(c);
      }
      assert out == out0 + Encode(done) + Encode(piece);
      EncodeConcat(done, piece);
      done := done + piece;
      i := i + 1;
    }
    assert input[limit..limit] == "" && done == Canon(m, input[pos..limit]);
  }

  lemma AsciiTriple(a: char, b: char)
    requires IsHex(a) && IsHex(b)
    ensures Encode(['%', a, b]) == ['%' as Byte, a as Byte, b as Byte]
  {
    var s := ['%', a, b];
    assert s[1..] == [a, b] && [a, b][1..] == [b] && [b][1..] == "";
    assert Encode([b]) == [b as Byte] && Encode([a, b]) == [a as Byte] + [b as Byte];
  }

  /** `canonicalize`: scan while nothing has to change, and only then fill a buffer. Both paths
      give the same string. */
  method Canonicalize(input: string, pos: nat, limit: nat, m: Mode) returns (r: string)
    requires pos <= limit <= |input|
    ensures r == Canon(m, input[pos..limit])
  {
    hide EncodeChar, Encode, Decode, Escape, PercentEncoded, Canon;
    var i := pos;
    CanonEmpty(m);
    while i < limit
      invariant pos <= i <= limit
      invariant input[pos..i] + Canon(m, input[i..limit]) == Canon(m, input[pos..limit])
    {
      var c := input[i];
      ghost var rest := input[i..limit];
      if c < ' ' || c == '\U{7f}' || (c >= '\U{80}' && m.asciiOnly) || c in m.encodeSet
        || (c == '%' && (!m.alreadyEncoded || (m.strict && !PercentEncoded(input[i..limit]))))
        || (c == '+' && m.plusIsSpace) {
        var out := Encode(input[pos..i]);
        EncodeConcat(input[pos..i], Canon(m, rest));
        out := CanonicalizeInto(out, input, i, limit, m);
        RoundTrip(Canon(m, input[pos..limit]));
        return Decode(out);
      }
      CanonStep(m, input, i, limit);
      assert input[pos..i + 1] == input[pos..i] + [c];
      i := i + 1;
    }
    assert input[limit..limit] == "";
    return input[pos..limit];
  }

  // ---------------------------------------------------------------- percentDecode

  /** The bytes that the front of an encoded text stands for, and how many characters it takes. */
  function DecodedHead(s: string, plusIsSpace: bool): (r: (seq<Byte>, nat))
    requires s != ""
    ensures r.0 != [] && 1 <= r.1 <= |s|
  {
    if PercentEncoded(s) then ([(16 * HexValue(s[1]) + HexValue(s[2])) as Byte], 3)
    else if s[0] == '+' && plusIsSpace then ([' ' as Byte], 1)
    else (EncodeChar(s[0]), 1)
  }

  function DecodedBytes(s: string, plusIsSpace: bool): (r: seq<Byte>)
    ensures r == [] <==> s == ""
  {
    if s == "" then [] else
      var (bytes, n) := DecodedHead(s, plusIsSpace);
      bytes + DecodedBytes(s[n..], plusIsSpace)
  }

  function PercentDecoded(s: string, plusIsSpace: bool): (r: string)
    ensures r == "" <==> s == ""
  {
    Decode(DecodedBytes(s, plusIsSpace))
  }

  lemma DecodedStep(s: string, i: nat, limit: nat, p: bool)
    requires i < limit <= |s|
    ensures var (bytes, n) := DecodedHead(s[i..limit], p);
            DecodedBytes(s[i..limit], p) == bytes + DecodedBytes(s[i + n..limit], p)
  {
  }

  method PercentDecodeInto(out0: seq<Byte>, encoded: string, pos: nat, limit: nat, plusIsSpace: bool)
    returns (out: seq<Byte>)
    requires pos <= limit <= |encoded|
    ensures out == out0 + DecodedBytes(encoded[pos..limit], plusIsSpace)
  {
    hide EncodeChar, HexValue, DecodedBytes;
    out := out0;
    var i := pos;
    ghost var done: seq<Byte> := [];
    while i < limit
      invariant pos <= i <= limit
      invariant out == out0 + done
      invariant done + DecodedBytes(encoded[i..limit], plusIsSpace) == DecodedBytes(encoded[pos..limit], plusIsSpace)
    {
      DecodedStep(encoded, i, limit, plusIsSpace);
      ghost var head := DecodedHead(encoded[i..limit], plusIsSpace);
      var bytes, n := EncodeChar(encoded[i]), 1;
      if encoded[i] == '%' && i + 2 < limit {
        var d1 := HexValue(encoded[i + 1]);
        var d2 := HexValue(encoded[i + 2]);
        if d1 != -1 && d2 != -1 {
          bytes, n := [(16 * d1 + d2) as Byte], 3;
        }
      } else if encoded[i] == '+' && plusIsSpace {
        bytes := [' ' as Byte];
      }
      assert head == (bytes, n);
      out, done := out + bytes, done + bytes;
      i := i + n;
    }
    assert done == DecodedBytes(encoded[pos..limit], plusIsSpace);
  }

  method PercentDecode(encoded: string, pos: nat, limit: nat, plusIsSpace: bool) returns (r: string)
    requires pos <= limit <= |encoded|
    ensures r == PercentDecoded(encoded[pos..limit], plusIsSpace)
  {
    hide EncodeChar, Encode, Decode, HexValue, DecodedBytes;
    var i := pos;
    EncodeEmpty();
    assert encoded[pos..pos] == "";
    while i < limit
      invariant pos <= i <= limit
      invariant Encode(encoded[pos..i]) + DecodedBytes(encoded[i..limit], plusIsSpace)
             == DecodedBytes(encoded[pos..limit], plusIsSpace)
    {
      var c := encoded[i];
      if c == '%' || (c == '+' && plusIsSpace) {
        var out := Encode(encoded[pos..i]);
        out := PercentDecodeInto(out, encoded, i, limit, plusIsSpace);
        return Decode(out);
      }
      DecodedStep(encoded, i, limit, plusIsSpace);
      assert encoded[pos..i + 1] == encoded[pos..i] + [c];
      EncodeConcat(encoded[pos..i], [c]);
      EncodeSingle(c);
      i := i + 1;
    }
    assert Encode(encoded[pos..limit]) == DecodedBytes(encoded[pos..limit], plusIsSpace);
    RoundTrip(encoded[pos..limit]);
    return encoded[pos..limit];
  }

  // ---------------------------------------------------------------- round trip

  lemma {:induction false} DecodeTriple(b: Byte, t: string, p: bool)
    ensures DecodedBytes(['%', HexDigit((b / 16) as int), HexDigit((b % 16) as int)] + t, p)
         == [b] + DecodedBytes(t, p)
  {
    hide HexDigit, HexValue;
    var s := ['%', HexDigit((b / 16) as int), HexDigit((b % 16) as int)] + t;
    assert PercentEncoded(s) && DecodedHead(s, p).0 == [b];
    assert s[3..] == t;
  }

  lemma {:induction false} DecodeEscapeBytes(bytes: seq<Byte>, t: string, p: bool)
    ensures DecodedBytes(EscapeBytes(bytes) + t, p) == bytes + DecodedBytes(t, p)
  {
    hide HexDigit, DecodedBytes;
    if bytes == [] {
      assert EscapeBytes(bytes) + t == t;
    } else {
      var b, u := bytes[0], EscapeBytes(bytes[1..]) + t;
      assert EscapeBytes(bytes) + t == ['%', HexDigit((b / 16) as int), HexDigit((b % 16) as int)] + u;
      DecodeTriple(b, u, p);
      DecodeEscapeBytes(bytes[1..], t, p);
    }
  }

  lemma {:induction false} DecodeCanon(m: Mode, s: string)
    requires !m.alreadyEncoded
    ensures DecodedBytes(Canon(m, s), m.plusIsSpace) == Encode(s)
  {
    if s != "" {
      var t := Canon(m, s[1..]);
      DecodeCanon(m, s[1..]);
      if s[0] == '+' && m.plusIsSpace {
        PlusEscape();
        DecodeEscapeBytes(EncodeChar('+'), t, m.plusIsSpace);
      } else if MustEscape(m, s) {
        DecodeEscapeBytes(EncodeChar(s[0]), t, m.plusIsSpace);
      } else {
        assert ([s[0]] + t)[1..] == t;
      }
    }
  }

  /** Percent-coding round trip: decoding a freshly encoded string gives the string back, for
      every encode set and every flag. */
  lemma DecodeUndoesCanon(m: Mode, s: string)
    requires !m.alreadyEncoded
    ensures PercentDecoded(Canon(m, s), m.plusIsSpace) == s
  {
    DecodeCanon(m, s);
    RoundTrip(s);
  }

  // ---------------------------------------------------------------- letter case of escapes

  /** The same text, but for the letter case of the digits of its escapes. */
  predicate SameButCase(s: string, t: string)
    decreases |s|
  {
    if PercentEncoded(s) then
      && PercentEncoded(t) && Lower(s[1]) == Lower(t[1]) && Lower(s[2]) == Lower(t[2])
      && SameButCase(s[3..], t[3..])
    else
      !PercentEncoded(t) && if s == "" || t == "" then s == t else s[0] == t[0] && SameButCase(s[1..], t[1..])
  }

  lemma HexCase(c: char, d: char)
    requires Lower(c) == Lower(d)
    ensures HexValue(c) == HexValue(d)
  {
  }

  /** "%c3%a9" and "%C3%A9" decode to the same text. */
  lemma {:induction false} DecodeIgnoresCase(s: string, t: string, p: bool)
    requires SameButCase(s, t)
    ensures DecodedBytes(s, p) == DecodedBytes(t, p)
    decreases |s|
  {
    hide HexValue, Lower;
    if PercentEncoded(s) {
      HexCase(s[1], t[1]);
      HexCase(s[2], t[2]);
      DecodeIgnoresCase(s[3..], t[3..], p);
    } else if s != "" {
      DecodeIgnoresCase(s[1..], t[1..], p);
    }
  }

  // ---------------------------------------------------------------- idempotence

  /** A character that canonicalising an already encoded string leaves alone. */
  predicate StableChar(m: Mode, c: char)
  {
    && ' ' <= c && c != '\U{7f}' && (c < '\U{80}' || !m.asciiOnly)
    && (c !in m.encodeSet || (c == '+' && m.plusIsSpace))
  }

  predicate Stable(m: Mode, s: string)
  {
    forall i :: 0 <= i < |s| ==> StableChar(m, s[i])
  }

  /** Every percent sign begins a two-digit escape. */
  predicate EscapesValid(s: string)
  {
    forall i :: 0 <= i < |s| && s[i] == '%' ==> PercentEncoded(s[i..])
  }

  /** The encode sets the class declares hold no hex digit, percent sign or plus sign. */
  predicate PlainSet(encodeSet: string)
  {
    forall i :: 0 <= i < |encodeSet| ==> !IsHex(encodeSet[i]) && encodeSet[i] != '%' && encodeSet[i] != '+'
  }

  /** `n` asks for no more than `m` did. */
  predicate Weaker(n: Mode, m: Mode)
  {
    && PlainSet(n.encodeSet)
    && (forall i :: 0 <= i < |n.encodeSet| ==> n.encodeSet[i] in m.encodeSet)
    && (n.asciiOnly ==> m.asciiOnly)
  }

  lemma StableConcat(m: Mode, a: string, b: string)
    requires Stable(m, a) && Stable(m, b)
    ensures Stable(m, a + b)
  {
  }

  lemma {:induction false} EscapeBytesStable(m: Mode, bytes: seq<Byte>)
    requires PlainSet(m.encodeSet)
    ensures Stable(m, EscapeBytes(bytes))
  {
    if bytes != [] {
      EscapeBytesStable(m, bytes[1..]);
      var triple := ['%', HexDigit((bytes[0] / 16) as int), HexDigit((bytes[0] % 16) as int)];
      assert Stable(m, triple);
      StableConcat(m, triple, EscapeBytes(bytes[1..]));
    }
  }

  /** Whatever the flags of the first pass, its output is stable for any weaker second pass. */
  lemma {:induction false} CanonOutputStable(m: Mode, s: string, n: Mode)
    requires Weaker(n, m)
    ensures Stable(n, Canon(m, s))
  {
    if s != "" {
      CanonOutputStable(m, s[1..], n);
      EscapeBytesStable(n, EncodeChar(s[0]));
      assert Stable(n, "%2B");
      StableConcat(n, CanonChar(m, s), Canon(m, s[1..]));
    }
  }

  lemma {:induction false} EscapeBytesValid(bytes: seq<Byte>, t: string)
    requires EscapesValid(t)
    ensures EscapesValid(EscapeBytes(bytes) + t)
  {
    if bytes == [] {
      assert EscapeBytes(bytes) + t == t;
    } else {
      var u := EscapeBytes(bytes[1..]) + t;
      EscapeBytesValid(bytes[1..], t);
      var r := EscapeBytes(bytes) + t;
      assert r == ['%', HexDigit((bytes[0] / 16) as int), HexDigit((bytes[0] % 16) as int)] + u;
      forall i | 0 <= i < |r| && r[i] == '%'
        ensures PercentEncoded(r[i..])
      {
        if i > 0 {
          assert r[i..] == u[i - 3..];
        }
      }
    }
  }

  lemma EscapesValidCons(c: char, t: string)
    requires EscapesValid(t)
    requires c == '%' ==> |t| >= 2 && IsHex(t[0]) && IsHex(t[1])
    ensures EscapesValid([c] + t)
  {
    hide IsHex;
    var r := [c] + t;
    forall i | 0 <= i < |r| && r[i] == '%'
      ensures PercentEncoded(r[i..])
    {
      if i > 0 {
        assert r[i..] == t[i - 1..];
      }
    }
  }

  lemma {:induction false} HexDigitsKept(m: Mode, s: string)
    requires PlainSet(m.encodeSet) && |s| >= 2 && IsHex(s[0]) && IsHex(s[1])
    ensures |Canon(m, s)| >= 2 && Canon(m, s)[..2] == s[..2]
  {
  }

  /** A strict pass, and a pass over raw text, leave no percent sign that is not an escape. */
  lemma {:induction false} CanonEscapesValid(m: Mode, s: string)
    requires PlainSet(m.encodeSet)
    requires m.strict || !m.alreadyEncoded
    ensures EscapesValid(Canon(m, s))
  {
    hide EncodeChar, IsHex, EscapesValid;
    if s == "" {
      NoEscapes();
    } else {
      var t := Canon(m, s[1..]);
      CanonEscapesValid(m, s[1..]);
      if Skipped(m, s[0]) {
        assert Canon(m, s) == t;
      } else if s[0] == '+' && m.plusIsSpace {
        EscapesValidCons('+', t);
        PlusEscape();
        EscapeBytesValid(EncodeChar('+'), t);
      } else if MustEscape(m, s) {
        EscapeBytesValid(EncodeChar(s[0]), t);
      } else {
        if s[0] == '%' {
          HexDigitsKept(m, s[1..]);
          assert t[0] == t[..2][0] && t[1] == t[..2][1];
        }
        EscapesValidCons(s[0], t);
      }
    }
  }

  lemma NoEscapes()
    ensures EscapesValid("")
  {
  }

  lemma PlusEscape()
    ensures EscapeBytes(EncodeChar('+')) == "%2B"
  {
  }

  lemma {:induction false} StableUnchanged(m: Mode, s: string)
    requires m.alreadyEncoded && PlainSet(m.encodeSet)
    requires Stable(m, s) && (m.strict ==> EscapesValid(s))
    ensures Canon(m, s) == s
  {
    if s != "" {
      assert s[0..] == s;
      forall i | 0 <= i < |s[1..]| && s[1..][i] == '%'
        ensures m.strict ==> PercentEncoded(s[1..][i..])
      {
        assert s[1..][i..] == s[i + 1..];
      }
      StableUnchanged(m, s[1..]);
    }
  }

  /** The fixed points of a pass over already encoded text, exactly. */
  lemma CanonFixpoint(m: Mode, s: string)
    requires m.alreadyEncoded && PlainSet(m.encodeSet)
    ensures Canon(m, s) == s <==> Stable(m, s) && (m.strict ==> EscapesValid(s))
  {
    if Canon(m, s) == s {
      CanonOutputStable(m, s, m);
      if m.strict {
        CanonEscapesValid(m, s);
      }
    } else if Stable(m, s) && (m.strict ==> EscapesValid(s)) {
      StableUnchanged(m, s);
    }
  }

  /** Canonicalisation is idempotent: a second, already-encoded pass with the same or a smaller
      encode set changes nothing; a strict second pass needs a first pass that left no bare '%'. */
  lemma CanonIdempotent(m: Mode, n: Mode, s: string)
    requires n.alreadyEncoded && Weaker(n, m)
    requires n.strict ==> PlainSet(m.encodeSet) && (m.strict || !m.alreadyEncoded)
    ensures Canon(n, Canon(m, s)) == Canon(m, s)
  {
    CanonOutputStable(m, s, n);
    if n.strict {
      CanonEscapesValid(m, s);
    }
    StableUnchanged(n, Canon(m, s));
  }

  // ---------------------------------------------------------------- concatenation

  /** Without look-ahead, canonicalisation works character by character. */
  lemma {:induction false} CanonConcat(m: Mode, a: string, b: string)
    requires !m.strict
    ensures Canon(m, a + b) == Canon(m, a) + Canon(m, b)
  {
    if a == "" {
      assert a + b == b;
    } else {
      assert (a + b)[1..] == a[1..] + b;
      CanonHead(m, a, b);
      CanonConcat(m, a[1..], b);
      hide CanonChar;
      assert Canon(m, a + b) == CanonChar(m, a) + (Canon(m, a[1..]) + Canon(m, b));
    }
  }

  lemma CanonHead(m: Mode, a: string, b: string)
    requires !m.strict && a != ""
    ensures CanonChar(m, a + b) == CanonChar(m, a)
  {
    assert (a + b)[0] == a[0];
    hide Escape;
  }

  /** A text without percent signs (and plus signs, when they mean spaces) decodes to itself. */
  lemma {:induction false} DecodePlain(s: string, p: bool)
    requires '%' !in s && (p ==> '+' !in s)
    ensures PercentDecoded(s, p) == s
  {
    DecodedPlainBytes(s, p);
    RoundTrip(s);
  }

  lemma {:induction false} DecodedPlainBytes(s: string, p: bool)
    requires '%' !in s && (p ==> '+' !in s)
    ensures DecodedBytes(s, p) == Encode(s)
  {
    if s != "" {
      DecodedPlainBytes(s[1..], p);
    }
  }
}
