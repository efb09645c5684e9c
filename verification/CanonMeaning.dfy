/** What `canonicalize` keeps of a text that is already encoded: the bytes that it stands for. */
module CanonMeaning {
  import opened Utf8
  import opened PercentCoding

  /** The text without the tabs and line ends that a pass over already encoded text drops. */
  function Unbroken(s: string): (r: string)
  {
    if s == "" then ""
    else if IsBreak(s[0]) then Unbroken(s[1..])
    else [s[0]] + Unbroken(s[1..])
  }

  /** Some percent sign begins an escape only once tabs and line ends are dropped. */
  predicate BrokenEscape(s: string)
  {
    s != "" && ((PercentEncoded(Unbroken(s)) && s[0] == '%' && !PercentEncoded(s)) || BrokenEscape(s[1..]))
  }

  /** What one character means that is not the start of an escape. */
  function PlainByte(c: char, p: bool): (r: seq<Byte>) { if c == '+' && p then [' ' as Byte] else EncodeChar(c) }

  lemma DecodedPlain(s: string, p: bool)
    requires s != "" && !PercentEncoded(s)
    ensures DecodedBytes(s, p) == PlainByte(s[0], p) + DecodedBytes(s[1..], p)
  {
  }

  lemma DecodedEscape(s: string, p: bool)
    requires PercentEncoded(s)
    ensures DecodedBytes(s, p) == DecodedHead(s, p).0 + DecodedBytes(s[3..], p) && |DecodedHead(s, p).0| == 1
    ensures DecodedBytes(s[1..], p) == PlainByte(s[1], p) + (PlainByte(s[2], p) + DecodedBytes(s[3..], p))
  {
    HexNotPlus(s[1]);
    HexNotPlus(s[2]);
    DecodedPlain(s[1..], p);
    assert s[1..][1..] == s[2..] && s[2..][1..] == s[3..];
    DecodedPlain(s[2..], p);
  }

  lemma HexNotPlus(c: char)
    requires IsHex(c)
    ensures c != '+' && c != '%' && c < '\U{80}' && ' ' < c && c != '\U{7f}' && !IsBreak(c)
  {
  }

  /** A hex digit passes through. */
  lemma HexKept(m: Mode, s: string)
    requires PlainSet(m.encodeSet) && s != "" && IsHex(s[0])
    ensures Canon(m, s) == [s[0]] + Canon(m, s[1..]) && Unbroken(s) == [s[0]] + Unbroken(s[1..])
  {
  }

  lemma NotBrokenHere(s: string)
    requires s != "" && s[0] != '%'
    ensures BrokenEscape(s) == BrokenEscape(s[1..])
  {
  }

  /** An escape passes through. */
  lemma EscapeKept(m: Mode, s: string)
    requires m.alreadyEncoded && PlainSet(m.encodeSet) && PercentEncoded(s)
    ensures Canon(m, s) == s[..3] + Canon(m, s[3..]) && Unbroken(s) == s[..3] + Unbroken(s[3..])
  {
    hide IsHex, Canon, Unbroken, PlainSet;
    PercentKept(m, s);
    HexKept(m, s[1..]);
    assert s[1..][1..] == s[2..];
    HexKept(m, s[2..]);
    assert s[2..][1..] == s[3..];
    ThreeInFront(s, Canon(m, s[3..]));
    ThreeInFront(s, Unbroken(s[3..]));
  }

  lemma ThreeInFront(s: string, rest: string)
    requires |s| >= 3
    ensures s[..3] + rest == [s[0]] + ([s[1]] + ([s[2]] + rest))
  {
  }

  lemma PercentKept(m: Mode, s: string)
    requires m.alreadyEncoded && PlainSet(m.encodeSet) && s != "" && s[0] == '%'
    requires m.strict ==> PercentEncoded(s)
    ensures Canon(m, s) == "%" + Canon(m, s[1..]) && Unbroken(s) == "%" + Unbroken(s[1..])
  {
  }

  lemma EscapeNotBroken(s: string)
    requires PercentEncoded(s)
    ensures BrokenEscape(s) == BrokenEscape(s[3..])
  {
    assert s[1..][1..] == s[2..] && s[2..][1..] == s[3..];
    HexNotPlus(s[1]);
    HexNotPlus(s[2]);
    NotBrokenHere(s[1..]);
    NotBrokenHere(s[2..]);
    hide IsHex, Unbroken;
  }

  /** One character that is no percent sign means the same before and after. */
  lemma PlainMeaning(m: Mode, s: string)
    requires m.alreadyEncoded && PlainSet(m.encodeSet) && s != "" && s[0] != '%' && !Skipped(m, s[0])
    ensures DecodedBytes(Canon(m, s), m.plusIsSpace)
         == PlainByte(s[0], m.plusIsSpace) + DecodedBytes(Canon(m, s[1..]), m.plusIsSpace)
    ensures Unbroken(s) == [s[0]] + Unbroken(s[1..])
    ensures DecodedBytes(Unbroken(s), m.plusIsSpace)
         == PlainByte(s[0], m.plusIsSpace) + DecodedBytes(Unbroken(s[1..]), m.plusIsSpace)
  {
    hide EncodeChar, HexValue, DecodedBytes, Canon, EscapeBytes;
    var p, rest := m.plusIsSpace, Canon(m, s[1..]);
    assert Unbroken(s) == [s[0]] + Unbroken(s[1..]);
    DecodedPlain(Unbroken(s), p);
    CanonHere(m, s);
    if s[0] == '+' && p {
      DecodedPlain("+" + rest, p);
    } else if MustEscape(m, s) {
      DecodeEscapeBytes(EncodeChar(s[0]), rest, p);
      assert s[0] == '+' ==> !p;
    } else {
      DecodedPlain([s[0]] + rest, p);
    }
  }

  /** Dropping tabs and line ends first makes no difference to a pass that does not look ahead. */
  lemma {:induction false} CanonUnbroken(m: Mode, s: string)
    requires m.alreadyEncoded && !m.strict
    ensures Canon(m, s) == Canon(m, Unbroken(s))
  {
    hide CanonChar;
    if s != "" {
      CanonUnbroken(m, s[1..]);
      if IsBreak(s[0]) {
        SkippedHere(m, s);
      } else {
        var t := Unbroken(s);
        assert t == [s[0]] + Unbroken(s[1..]);
        assert t[1..] == Unbroken(s[1..]);
        SameHead(m, s, t);
      }
    }
  }

  lemma SkippedHere(m: Mode, s: string)
    requires m.alreadyEncoded && s != "" && IsBreak(s[0])
    ensures Skipped(m, s[0]) && Canon(m, s) == Canon(m, s[1..])
  {
  }

  lemma SameHead(m: Mode, s: string, t: string)
    requires !m.strict && s != "" && t != "" && s[0] == t[0]
    ensures CanonChar(m, s) == CanonChar(m, t)
  {
  }

  /** Nothing in the text would be dropped. */
  predicate Clean(s: string) { forall i :: 0 <= i < |s| ==> !IsBreak(s[i]) }

  lemma {:induction false} UnbrokenClean(s: string)
    ensures Clean(Unbroken(s))
  {
    if s != "" {
      UnbrokenClean(s[1..]);
    }
  }

  lemma {:induction false} CleanKept(s: string)
    requires Clean(s)
    ensures Unbroken(s) == s && !BrokenEscape(s)
  {
    if s != "" {
      CleanKept(s[1..]);
    }
  }

  lemma NoHexMade(m: Mode, s: string)
    requires m.alreadyEncoded && Clean(s) && s != "" && !IsHex(s[0])
    ensures Canon(m, s) != "" && !IsHex(Canon(m, s)[0])
  {
    CanonHere(m, s);
    assert !IsBreak(s[0]);
    assert !IsHex('%') && !IsHex('+');
    hide EncodeChar, IsHex, Canon;
  }

  /** After a percent sign that begins no escape, none begins in the output either. */
  lemma NoEscapeMade(m: Mode, s: string)
    requires m.alreadyEncoded && PlainSet(m.encodeSet) && Clean(s) && s != "" && s[0] == '%' && !PercentEncoded(s)
    ensures !PercentEncoded("%" + Canon(m, s[1..]))
  {
    hide IsHex, Canon, PlainSet;
    var t := s[1..];
    CanonEmpty(m);
    if t != "" {
      if IsHex(t[0]) {
        HexKept(m, t);
        assert t[1..] == s[2..];
        if |t| > 1 {
          NoHexMade(m, t[1..]);
        }
      } else {
        NoHexMade(m, t);
      }
    }
  }

  lemma CanonHere(m: Mode, s: string)
    requires s != ""
    ensures Canon(m, s) == CanonChar(m, s) + Canon(m, s[1..])
  {
  }

  lemma {:induction false} CleanMeaning(m: Mode, s: string)
    requires m.alreadyEncoded && PlainSet(m.encodeSet) && Clean(s)
    ensures DecodedBytes(Canon(m, s), m.plusIsSpace) == DecodedBytes(s, m.plusIsSpace)
    decreases |s|
  {
    var p := m.plusIsSpace;
    if s == "" {
      CanonEmpty(m);
    } else {
      hide DecodedBytes, Canon, PlainSet, IsHex, DecodedHead, PercentEncoded;
      assert !IsBreak(s[0]);
      CleanMeaning(m, s[1..]);
      if PercentEncoded(s) {
        CleanMeaning(m, s[3..]);
        EscapeMeaning(m, s);
      } else {
        DecodedPlain(s, p);
        if s[0] != '%' {
          PlainMeaning(m, s);
        } else if m.strict {
          PercentEscaped(m, s);
        } else {
          NoEscapeMade(m, s);
          PercentKept(m, s);
          DecodedPlain("%" + Canon(m, s[1..]), p);
          assert ("%" + Canon(m, s[1..]))[1..] == Canon(m, s[1..]);
        }
      }
    }
  }

  lemma EscapeMeaning(m: Mode, s: string)
    requires m.alreadyEncoded && PlainSet(m.encodeSet) && PercentEncoded(s)
    ensures var p := m.plusIsSpace;
            && DecodedBytes(Canon(m, s), p) == DecodedHead(s, p).0 + DecodedBytes(Canon(m, s[3..]), p)
            && DecodedBytes(Unbroken(s), p) == DecodedHead(s, p).0 + DecodedBytes(Unbroken(s[3..]), p)
            && DecodedBytes(s, p) == DecodedHead(s, p).0 + DecodedBytes(s[3..], p)
  {
    hide DecodedBytes, Canon, PlainSet, Unbroken, HexValue;
    EscapeKept(m, s);
    DecodedEscape(s, m.plusIsSpace);
    EscapeHead(s, Canon(m, s[3..]), m.plusIsSpace);
    EscapeHead(s, Unbroken(s[3..]), m.plusIsSpace);
  }

  lemma EscapeHead(s: string, rest: string, p: bool)
    requires PercentEncoded(s)
    ensures DecodedBytes(s[..3] + rest, p) == DecodedHead(s, p).0 + DecodedBytes(rest, p)
  {
    hide HexValue;
    assert (s[..3] + rest)[3..] == rest;
  }

  /** A strict pass escapes a percent sign that begins no escape. */
  lemma PercentEscaped(m: Mode, s: string)
    requires m.alreadyEncoded && m.strict && s != "" && s[0] == '%' && !PercentEncoded(s)
    ensures DecodedBytes(Canon(m, s), m.plusIsSpace) == ['%' as Byte] + DecodedBytes(Canon(m, s[1..]), m.plusIsSpace)
    ensures PlainByte('%', m.plusIsSpace) == ['%' as Byte]
  {
    CanonHere(m, s);
    hide DecodedBytes, Canon;
    DecodeEscapeBytes(EncodeChar('%'), Canon(m, s[1..]), m.plusIsSpace);
  }

  /** A strict pass never means less, and means more exactly where it breaks an escape. */
  lemma {:induction false} StrictMeaning(m: Mode, s: string)
    requires m.alreadyEncoded && m.strict && PlainSet(m.encodeSet)
    ensures var x, y := DecodedBytes(Canon(m, s), m.plusIsSpace), DecodedBytes(Unbroken(s), m.plusIsSpace);
            if BrokenEscape(s) then |x| > |y| else x == y
    decreases |s|
  {
    var p := m.plusIsSpace;
    if s != "" {
      hide DecodedBytes, Canon, PlainSet, IsHex, DecodedHead, PercentEncoded, Unbroken;
      StrictMeaning(m, s[1..]);
      if IsBreak(s[0]) {
        SkippedHere(m, s);
        DroppedHere(s);
        NotBrokenHere(s);
      } else if PercentEncoded(s) {
        StrictMeaning(m, s[3..]);
        EscapeMeaning(m, s);
        EscapeNotBroken(s);
        DecodedEscape(s, p);
      } else if s[0] != '%' {
        PlainMeaning(m, s);
        NotBrokenHere(s);
      } else {
        PercentEscaped(m, s);
        BrokenHere(s, p);
      }
    }
  }

  lemma DroppedHere(s: string)
    requires s != "" && IsBreak(s[0])
    ensures Unbroken(s) == Unbroken(s[1..])
  {
  }

  /** A percent sign that begins an escape only without the tabs and line ends stands for two bytes less there. */
  lemma BrokenHere(s: string, p: bool)
    requires s != "" && s[0] == '%' && !PercentEncoded(s)
    ensures var x, y := DecodedBytes(Unbroken(s), p), DecodedBytes(Unbroken(s[1..]), p);
            if PercentEncoded(Unbroken(s)) then BrokenEscape(s) && |x| < 1 + |y|
            else BrokenEscape(s) == BrokenEscape(s[1..]) && x == PlainByte('%', p) + y
  {
    var t := Unbroken(s);
    assert t[1..] == Unbroken(s[1..]);
    hide DecodedBytes, IsHex, DecodedHead, EncodeChar;
    if PercentEncoded(t) {
      DecodedEscape(t, p);
    } else {
      DecodedPlain(t, p);
    }
  }

  /** What a pass over already encoded text keeps: the bytes that the text stands for once its tabs and line
      ends are dropped. A strict pass keeps them exactly when none of the dropped characters splits an escape. */
  lemma EncodedMeaning(m: Mode, s: string)
    requires m.alreadyEncoded && PlainSet(m.encodeSet)
    ensures DecodedBytes(Canon(m, s), m.plusIsSpace) == DecodedBytes(Unbroken(s), m.plusIsSpace)
        <==> !(m.strict && BrokenEscape(s))
  {
    hide PlainSet, Canon, DecodedBytes, Unbroken, BrokenEscape;
    if m.strict {
      StrictMeaning(m, s);
    } else {
      CanonUnbroken(m, s);
      UnbrokenClean(s);
      CleanMeaning(m, Unbroken(s));
    }
  }

  /** One such text: a tab inside "%41". */
  lemma TabInEscape()
    ensures BrokenEscape("%\t41") && PercentEncoded(Unbroken("%\t41")) && !BrokenEscape("%41\t")
  {
    var s := "%\t41";
    assert s[1..] == "\t41" && s[1..][1..] == "41" && "41"[1..] == "1" && "1"[1..] == "";
    assert Unbroken("41") == "4" + Unbroken("1") && Unbroken("1") == "1" + Unbroken("");
    assert Unbroken(s) == "%41";
    var t := "%41\t";
    assert t[1..] == "41\t" && t[1..][1..] == "1\t" && "1\t"[1..] == "\t" && "\t"[1..] == "";
  }

  /** So a text that decodes to something still decodes to it after `canonicalize`. */
  lemma EncodedTextKept(m: Mode, s: string)
    requires m.alreadyEncoded && PlainSet(m.encodeSet) && !(m.strict && BrokenEscape(s))
    ensures PercentDecoded(Canon(m, s), m.plusIsSpace) == PercentDecoded(Unbroken(s), m.plusIsSpace)
    ensures Clean(s) ==> Unbroken(s) == s
  {
    hide PlainSet, Canon, DecodedBytes, Unbroken, BrokenEscape, Decode;
    if Clean(s) {
      CleanKept(s);
    }
    EncodedMeaning(m, s);
  }
}
