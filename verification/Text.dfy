/** Strings, options and decimal numbers shared by the models of the Java classes. */
module Text {

  datatype Option<+T> = None | Some(value: T)

  datatype Result<+T, +E> = Ok(value: T) | Err(error: E)

  // ---------------------------------------------------------------- scanning

  /** `Util.delimiterOffset`, `String.indexOf` and `HttpHeaders.skipUntil` on a whole string:
      the first position holding one of `delims`, or the length when there is none. */
  function FirstOf(s: string, delims: string): (r: nat)
    ensures r <= |s|
    ensures forall i :: 0 <= i < r ==> s[i] !in delims
    ensures r < |s| ==> s[r] in delims
  {
    if s == "" || s[0] in delims then 0 else 1 + FirstOf(s[1..], delims)
  }

  predicate Free(s: string, chars: string)
  {
    forall i :: 0 <= i < |s| ==> s[i] !in chars
  }

  /** The loop of `Util.delimiterOffset`. */
  method DelimiterOffset(input: string, pos: nat, limit: nat, delims: string) returns (r: nat)
    requires pos <= limit <= |input|
    ensures pos <= r <= limit
    ensures r == pos + FirstOf(input[pos..limit], delims)
  {
    r := pos;
    while r < limit && input[r] !in delims
      invariant pos <= r <= limit
      invariant forall i :: pos <= i < r ==> input[i] !in delims
    {
      r := r + 1;
    }
    ghost var s := input[pos..limit];
    assert forall i :: 0 <= i < r - pos ==> s[i] == input[pos + i];
    assert r < limit ==> s[r - pos] in delims;
  }

  /** The characters `Util.skipLeadingAsciiWhitespace` and its trailing counterpart skip. */
  predicate IsSpace(c: char)
  {
    c == '\t' || c == '\n' || c == '\U{0c}' || c == '\r' || c == ' '
  }

  function TrimLeft(s: string): (r: string)
    ensures |r| <= |s| && r == s[|s| - |r|..]
    ensures r != "" ==> !IsSpace(r[0])
    ensures forall i :: 0 <= i < |s| - |r| ==> IsSpace(s[i])
  {
    if s != "" && IsSpace(s[0]) then TrimLeft(s[1..]) else s
  }

  function TrimRight(s: string): (r: string)
    ensures r <= s
    ensures r != "" ==> !IsSpace(r[|r| - 1])
    ensures forall i :: |r| <= i < |s| ==> IsSpace(s[i])
  {
    if s != "" && IsSpace(s[|s| - 1]) then TrimRight(s[..|s| - 1]) else s
  }

  function TrimBoth(s: string): (r: string)
  {
    TrimRight(TrimLeft(s))
  }

  method SkipLeading(input: string) returns (pos: nat)
    ensures pos <= |input| && input[pos..] == TrimLeft(input)
  {
    pos := 0;
    while pos < |input| && IsSpace(input[pos])
      invariant pos <= |input|
      invariant TrimLeft(input[pos..]) == TrimLeft(input)
    {
      assert input[pos..][1..] == input[pos + 1..];
      pos := pos + 1;
    }
  }

  method SkipTrailing(input: string, pos: nat) returns (limit: nat)
    requires pos <= |input|
    ensures pos <= limit <= |input| && input[pos..limit] == TrimRight(input[pos..])
  {
    limit := |input|;
    assert input[pos..limit] == input[pos..];
    while limit > pos && IsSpace(input[limit - 1])
      invariant pos <= limit <= |input|
      invariant TrimRight(input[pos..limit]) == TrimRight(input[pos..])
    {
      ghost var s := input[pos..limit];
      assert s[..|s| - 1] == input[pos..limit - 1];
      limit := limit - 1;
    }
  }

  lemma {:induction false} TrimRightAppend(a: string, b: string)
    requires a != "" && !IsSpace(a[|a| - 1])
    ensures TrimRight(a + b) == a + TrimRight(b)
    decreases |b|
  {
    hide IsSpace;
    if b == "" {
      assert a + b == a;
    } else if IsSpace(b[|b| - 1]) {
      TrimRightAppend(a, b[..|b| - 1]);
      assert (a + b)[..|a + b| - 1] == a + b[..|b| - 1];
    }
  }

  // ---------------------------------------------------------------- letters

  function Lower(c: char): (r: char)
  {
    if 'A' <= c <= 'Z' then c + ' ' else c
  }

  /** `String.equalsIgnoreCase` against a lower-case ASCII pattern. Three non-ASCII letters fold
      onto ASCII ones in Java: long s, Kelvin sign, and the two Turkish i's. */
  predicate SameLetter(c: char, p: char)
  {
    || Lower(c) == p
    || (p == 's' && c == '\U{017f}')
    || (p == 'k' && c == '\U{212a}')
    || (p == 'i' && (c == '\U{0130}' || c == '\U{0131}'))
  }

  predicate EqualsIgnoreCase(s: string, pattern: string)
  {
    |s| == |pattern| && forall i :: 0 <= i < |s| ==> SameLetter(s[i], pattern[i])
  }

  // ---------------------------------------------------------------- decimals

  function Digit(d: nat): (c: char)
    requires d < 10
    ensures '0' <= c <= '9' && c as int == '0' as int + d
  {
    '0' + d as char
  }

  predicate IsDigit(c: char) { '0' <= c <= '9' }

  predicate AllDigits(s: string)
  {
    forall i :: 0 <= i < |s| ==> IsDigit(s[i])
  }

  /** `StringBuilder.append(int)` and `writeDecimalLong` for a number that is not negative. */
  function PrintNat(n: nat): (s: string)
    ensures s != "" && AllDigits(s)
  {
    if n < 10 then [Digit(n)] else PrintNat(n / 10) + [Digit(n % 10)]
  }

  function PrintInt(n: int): (s: string)
  {
    if n < 0 then "-" + PrintNat(0 - n) else PrintNat(n)
  }

  function DigitsValue(s: string): (n: nat)
    requires AllDigits(s)
  {
    if s == "" then 0 else 10 * DigitsValue(s[..|s| - 1]) + (s[|s| - 1] as int - '0' as int)
  }

  /** The digits of `Integer.parseInt` and `Long.parseLong`: an optional sign, then digits. */
  function ParseInteger(s: string): (r: Option<int>)
  {
    var body := if s != "" && (s[0] == '+' || s[0] == '-') then s[1..] else s;
    if body == "" || !AllDigits(body) then None
    else if s[0] == '-' then Some(0 - DigitsValue(body))
    else Some(DigitsValue(body))
  }

  lemma {:induction false} DigitsValuePrint(n: nat)
    ensures DigitsValue(PrintNat(n)) == n
  {
    if n < 10 {
      var s := PrintNat(n);
      assert s[..0] == "";
    } else {
      var s := PrintNat(n);
      assert s[..|s| - 1] == PrintNat(n / 10);
      DigitsValuePrint(n / 10);
    }
  }

  lemma ParsePrint(n: nat)
    ensures ParseInteger(PrintNat(n)) == Some(n)
  {
    DigitsValuePrint(n);
    assert IsDigit(PrintNat(n)[0]);
  }

  lemma ParsePrintInt(n: int)
    ensures ParseInteger(PrintInt(n)) == Some(n)
  {
    if n < 0 {
      DigitsValuePrint(0 - n);
      assert PrintInt(n)[1..] == PrintNat(0 - n);
    } else {
      ParsePrint(n);
    }
  }
}
