/** Which characters each component of a URL is made of, in so many letters: what `canonicalize` stores holds no
    other, and text that holds no other is stored as it is. */
module UrlAlphabet {
  import opened Text
  import opened Utf8
  import opened PercentCoding
  import opened QueryString
  import opened UrlBuilder
  import opened UrlCanonical

  predicate Alphanumeric(c: char) { 'a' <= c <= 'z' || 'A' <= c <= 'Z' || '0' <= c <= '9' }

  const USER_CHARS: string := "!$%&()*+,-._~"
  const PATH_CHARS: string := "!$%&'()*+,-.:;=@[]_~"
  const QUERY_CHARS: string := "!$%&()*+,-./:;=?@[\\]^_`{|}~"
  const REENCODE_CHARS: string := "!$%()*+,-./:;?@[\\]^_`{|}~"
  const COMPONENT_CHARS: string := "%*+-._"
  const PATH_URI_CHARS: string := "!\"#$%&'()*+,-./:;<=>?@\\^_`{|}~"
  const QUERY_URI_CHARS: string := "!\"#$%&'()*+,-./:;<=>?@[]_~"
  const FRAGMENT_URI_CHARS: string := "!$%&'()*+,-./:;=?@[]_~"

  predicate MadeOf(s: string, chars: string) { forall i :: 0 <= i < |s| ==> Alphanumeric(s[i]) || s[i] in chars }

  /** No control characters: what a fragment is made of, which keeps its non-ASCII characters. */
  predicate Visible(s: string) { forall i :: 0 <= i < |s| ==> ' ' <= s[i] && s[i] != '\U{7f}' }

  // ---------------------------------------------------------------- the encode sets are the other characters

  /** The letters and digits, `chars` and the encode set are the visible ASCII characters, and the set has none in
      common with the others. */
  ghost predicate Complement(encodeSet: string, chars: string)
  {
    && (forall i :: 0 <= i < |encodeSet| ==> !Alphanumeric(encodeSet[i]) && encodeSet[i] !in chars)
    && (forall c: char :: ' ' < c < '\U{7f}' && !Alphanumeric(c) && c !in chars ==> c in encodeSet)
    && (forall i :: 0 <= i < |chars| ==> ' ' < chars[i] < '\U{7f}')
  }

  lemma UserOut(i: nat)
    requires i < |USERNAME_ENCODE_SET|
    ensures !Alphanumeric(USERNAME_ENCODE_SET[i]) && USERNAME_ENCODE_SET[i] !in USER_CHARS
  {
  }

  lemma UserIn(c: char)
    requires ' ' < c < '\U{7f}' && !Alphanumeric(c) && c !in USER_CHARS
    ensures c in USERNAME_ENCODE_SET
  {
  }

  lemma PathOut(i: nat)
    requires i < |PATH_SEGMENT_ENCODE_SET|
    ensures !Alphanumeric(PATH_SEGMENT_ENCODE_SET[i]) && PATH_SEGMENT_ENCODE_SET[i] !in PATH_CHARS
  {
  }

  lemma PathIn(c: char)
    requires ' ' < c < '\U{7f}' && !Alphanumeric(c) && c !in PATH_CHARS
    ensures c in PATH_SEGMENT_ENCODE_SET
  {
  }

  lemma QueryOut(i: nat)
    requires i < |QUERY_ENCODE_SET|
    ensures !Alphanumeric(QUERY_ENCODE_SET[i]) && QUERY_ENCODE_SET[i] !in QUERY_CHARS
  {
  }

  lemma QueryIn(c: char)
    requires ' ' < c < '\U{7f}' && !Alphanumeric(c) && c !in QUERY_CHARS
    ensures c in QUERY_ENCODE_SET
  {
  }

  lemma ReencodeOut(i: nat)
    requires i < |QUERY_COMPONENT_REENCODE_SET|
    ensures !Alphanumeric(QUERY_COMPONENT_REENCODE_SET[i]) && QUERY_COMPONENT_REENCODE_SET[i] !in REENCODE_CHARS
  {
  }

  lemma ReencodeIn(c: char)
    requires ' ' < c < '\U{7f}' && !Alphanumeric(c) && c !in REENCODE_CHARS
    ensures c in QUERY_COMPONENT_REENCODE_SET
  {
  }

  lemma ComponentOut(i: nat)
    requires i < |QUERY_COMPONENT_ENCODE_SET|
    ensures !Alphanumeric(QUERY_COMPONENT_ENCODE_SET[i]) && QUERY_COMPONENT_ENCODE_SET[i] !in COMPONENT_CHARS
  {
  }

  lemma ComponentIn(c: char)
    requires ' ' < c < '\U{7f}' && !Alphanumeric(c) && c !in COMPONENT_CHARS
    ensures c in QUERY_COMPONENT_ENCODE_SET
  {
  }

  lemma PathUriOut(i: nat)
    requires i < |PATH_SEGMENT_ENCODE_SET_URI|
    ensures !Alphanumeric(PATH_SEGMENT_ENCODE_SET_URI[i]) && PATH_SEGMENT_ENCODE_SET_URI[i] !in PATH_URI_CHARS
  {
  }

  lemma PathUriIn(c: char)
    requires ' ' < c < '\U{7f}' && !Alphanumeric(c) && c !in PATH_URI_CHARS
    ensures c in PATH_SEGMENT_ENCODE_SET_URI
  {
  }

  lemma QueryUriOut(i: nat)
    requires i < |QUERY_COMPONENT_ENCODE_SET_URI|
    ensures !Alphanumeric(QUERY_COMPONENT_ENCODE_SET_URI[i]) && QUERY_COMPONENT_ENCODE_SET_URI[i] !in QUERY_URI_CHARS
  {
  }

  lemma QueryUriIn(c: char)
    requires ' ' < c < '\U{7f}' && !Alphanumeric(c) && c !in QUERY_URI_CHARS
    ensures c in QUERY_COMPONENT_ENCODE_SET_URI
  {
  }

  lemma FragmentUriOut(i: nat)
    requires i < |FRAGMENT_ENCODE_SET_URI|
    ensures !Alphanumeric(FRAGMENT_ENCODE_SET_URI[i]) && FRAGMENT_ENCODE_SET_URI[i] !in FRAGMENT_URI_CHARS
  {
  }

  lemma FragmentUriIn(c: char)
    requires ' ' < c < '\U{7f}' && !Alphanumeric(c) && c !in FRAGMENT_URI_CHARS
    ensures c in FRAGMENT_ENCODE_SET_URI
  {
  }

  lemma UserRange()
    ensures forall i :: 0 <= i < |USER_CHARS| ==> ' ' < USER_CHARS[i] < '\U{7f}'
  {
  }

  lemma UserComplement()
    ensures Complement(USERNAME_ENCODE_SET, USER_CHARS)
  {
    hide Alphanumeric;
    UserRange();
    forall i | 0 <= i < |USERNAME_ENCODE_SET|
      ensures !Alphanumeric(USERNAME_ENCODE_SET[i]) && USERNAME_ENCODE_SET[i] !in USER_CHARS
    {
      UserOut(i);
    }
    forall c: char | ' ' < c < '\U{7f}' && !Alphanumeric(c) && c !in USER_CHARS
      ensures c in USERNAME_ENCODE_SET
    {
      UserIn(c);
    }
  }

  lemma PathRange()
    ensures forall i :: 0 <= i < |PATH_CHARS| ==> ' ' < PATH_CHARS[i] < '\U{7f}'
  {
  }

  lemma PathComplement()
    ensures Complement(PATH_SEGMENT_ENCODE_SET, PATH_CHARS)
  {
    hide Alphanumeric;
    PathRange();
    forall i | 0 <= i < |PATH_SEGMENT_ENCODE_SET|
      ensures !Alphanumeric(PATH_SEGMENT_ENCODE_SET[i]) && PATH_SEGMENT_ENCODE_SET[i] !in PATH_CHARS
    {
      PathOut(i);
    }
    forall c: char | ' ' < c < '\U{7f}' && !Alphanumeric(c) && c !in PATH_CHARS
      ensures c in PATH_SEGMENT_ENCODE_SET
    {
      PathIn(c);
    }
  }

  lemma QueryRange()
    ensures forall i :: 0 <= i < |QUERY_CHARS| ==> ' ' < QUERY_CHARS[i] < '\U{7f}'
  {
  }

  lemma QueryComplement()
    ensures Complement(QUERY_ENCODE_SET, QUERY_CHARS)
  {
    hide Alphanumeric;
    QueryRange();
    forall i | 0 <= i < |QUERY_ENCODE_SET|
      ensures !Alphanumeric(QUERY_ENCODE_SET[i]) && QUERY_ENCODE_SET[i] !in QUERY_CHARS
    {
      QueryOut(i);
    }
    forall c: char | ' ' < c < '\U{7f}' && !Alphanumeric(c) && c !in QUERY_CHARS
      ensures c in QUERY_ENCODE_SET
    {
      QueryIn(c);
    }
  }

  lemma ReencodeRange()
    ensures forall i :: 0 <= i < |REENCODE_CHARS| ==> ' ' < REENCODE_CHARS[i] < '\U{7f}'
  {
  }

  lemma ReencodeComplement()
    ensures Complement(QUERY_COMPONENT_REENCODE_SET, REENCODE_CHARS)
  {
    hide Alphanumeric;
    ReencodeRange();
    forall i | 0 <= i < |QUERY_COMPONENT_REENCODE_SET|
      ensures !Alphanumeric(QUERY_COMPONENT_REENCODE_SET[i]) && QUERY_COMPONENT_REENCODE_SET[i] !in REENCODE_CHARS
    {
      ReencodeOut(i);
    }
    forall c: char | ' ' < c < '\U{7f}' && !Alphanumeric(c) && c !in REENCODE_CHARS
      ensures c in QUERY_COMPONENT_REENCODE_SET
    {
      ReencodeIn(c);
    }
  }

  lemma ComponentRange()
    ensures forall i :: 0 <= i < |COMPONENT_CHARS| ==> ' ' < COMPONENT_CHARS[i] < '\U{7f}'
  {
  }

  lemma ComponentComplement()
    ensures Complement(QUERY_COMPONENT_ENCODE_SET, COMPONENT_CHARS)
  {
    hide Alphanumeric;
    ComponentRange();
    forall i | 0 <= i < |QUERY_COMPONENT_ENCODE_SET|
      ensures !Alphanumeric(QUERY_COMPONENT_ENCODE_SET[i]) && QUERY_COMPONENT_ENCODE_SET[i] !in COMPONENT_CHARS
    {
      ComponentOut(i);
    }
    forall c: char | ' ' < c < '\U{7f}' && !Alphanumeric(c) && c !in COMPONENT_CHARS
      ensures c in QUERY_COMPONENT_ENCODE_SET
    {
      ComponentIn(c);
    }
  }

  lemma PathUriRange()
    ensures forall i :: 0 <= i < |PATH_URI_CHARS| ==> ' ' < PATH_URI_CHARS[i] < '\U{7f}'
  {
  }

  lemma PathUriComplement()
    ensures Complement(PATH_SEGMENT_ENCODE_SET_URI, PATH_URI_CHARS)
  {
    hide Alphanumeric;
    PathUriRange();
    forall i | 0 <= i < |PATH_SEGMENT_ENCODE_SET_URI|
      ensures !Alphanumeric(PATH_SEGMENT_ENCODE_SET_URI[i]) && PATH_SEGMENT_ENCODE_SET_URI[i] !in PATH_URI_CHARS
    {
      PathUriOut(i);
    }
    forall c: char | ' ' < c < '\U{7f}' && !Alphanumeric(c) && c !in PATH_URI_CHARS
      ensures c in PATH_SEGMENT_ENCODE_SET_URI
    {
      PathUriIn(c);
    }
  }

  lemma QueryUriRange()
    ensures forall i :: 0 <= i < |QUERY_URI_CHARS| ==> ' ' < QUERY_URI_CHARS[i] < '\U{7f}'
  {
  }

  lemma QueryUriComplement()
    ensures Complement(QUERY_COMPONENT_ENCODE_SET_URI, QUERY_URI_CHARS)
  {
    hide Alphanumeric;
    QueryUriRange();
    forall i | 0 <= i < |QUERY_COMPONENT_ENCODE_SET_URI|
      ensures !Alphanumeric(QUERY_COMPONENT_ENCODE_SET_URI[i]) && QUERY_COMPONENT_ENCODE_SET_URI[i] !in QUERY_URI_CHARS
    {
      QueryUriOut(i);
    }
    forall c: char | ' ' < c < '\U{7f}' && !Alphanumeric(c) && c !in QUERY_URI_CHARS
      ensures c in QUERY_COMPONENT_ENCODE_SET_URI
    {
      QueryUriIn(c);
    }
  }

  lemma FragmentUriRange()
    ensures forall i :: 0 <= i < |FRAGMENT_URI_CHARS| ==> ' ' < FRAGMENT_URI_CHARS[i] < '\U{7f}'
  {
  }

  lemma FragmentUriComplement()
    ensures Complement(FRAGMENT_ENCODE_SET_URI, FRAGMENT_URI_CHARS)
  {
    hide Alphanumeric;
    FragmentUriRange();
    forall i | 0 <= i < |FRAGMENT_ENCODE_SET_URI|
      ensures !Alphanumeric(FRAGMENT_ENCODE_SET_URI[i]) && FRAGMENT_ENCODE_SET_URI[i] !in FRAGMENT_URI_CHARS
    {
      FragmentUriOut(i);
    }
    forall c: char | ' ' < c < '\U{7f}' && !Alphanumeric(c) && c !in FRAGMENT_URI_CHARS
      ensures c in FRAGMENT_ENCODE_SET_URI
    {
      FragmentUriIn(c);
    }
  }

  // ---------------------------------------------------------------- what is stored

  /** The mode escapes everything but the letters and digits and `chars`. */
  ghost predicate Keeps(m: Mode, chars: string)
  {
    Complement(m.encodeSet, chars) && ' ' in m.encodeSet && m.asciiOnly && PlainSet(m.encodeSet)
  }

  lemma StableCharMadeOf(m: Mode, chars: string, c: char)
    requires Keeps(m, chars)
    ensures StableChar(m, c) <==> Alphanumeric(c) || c in chars
  {
    hide PlainSet;
    if c in m.encodeSet {
      var i :| 0 <= i < |m.encodeSet| && m.encodeSet[i] == c;
      PlusPlain(m, i);
    }
    if c in chars {
      var i :| 0 <= i < |chars| && chars[i] == c;
    }
  }

  lemma PlusPlain(m: Mode, i: nat)
    requires PlainSet(m.encodeSet) && i < |m.encodeSet|
    ensures m.encodeSet[i] != '+'
  {
  }

  lemma StableMadeOf(m: Mode, chars: string, s: string)
    requires Keeps(m, chars)
    ensures Stable(m, s) <==> MadeOf(s, chars)
  {
    hide Keeps, StableChar, Alphanumeric;
    forall i | 0 <= i < |s|
      ensures StableChar(m, s[i]) <==> Alphanumeric(s[i]) || s[i] in chars
    {
      StableCharMadeOf(m, chars, s[i]);
    }
  }

  /** What is stored is made of those characters; encoded text is stored unchanged exactly when it is. */
  lemma StoredMadeOf(m: Mode, chars: string, s: string)
    requires Keeps(m, chars)
    ensures MadeOf(Canon(m, s), chars)
    ensures m.alreadyEncoded && !m.strict ==> (Canon(m, s) == s <==> MadeOf(s, chars))
  {
    hide Complement, PlainSet, Canon, Stable, MadeOf, EscapesValid;
    CanonOutputStable(m, s, m);
    StableMadeOf(m, chars, Canon(m, s));
    StableMadeOf(m, chars, s);
    if m.alreadyEncoded {
      CanonFixpoint(m, s);
    }
  }

  lemma KeptModes(a: bool)
    ensures Keeps(UserMode(a), USER_CHARS) && Keeps(PathMode(a), PATH_CHARS) && Keeps(QueryMode(a), QUERY_CHARS)
    ensures Keeps(REENCODE_MODE, REENCODE_CHARS) && Keeps(COMPONENT_MODE, COMPONENT_CHARS)
  {
    hide Complement, PlainSet;
    UserComplement();
    PathComplement();
    QueryComplement();
    ReencodeComplement();
    ComponentComplement();
    PlainSets();
    WeakerComponents();
    ComponentPlain();
  }

  lemma ComponentPlain()
    ensures PlainSet(QUERY_COMPONENT_REENCODE_SET) && PlainSet(QUERY_COMPONENT_ENCODE_SET)
  {
  }

  /** The characters of each component, whatever text is given, raw or encoded. */
  lemma ComponentChars(a: bool, s: string)
    ensures MadeOf(Canon(UserMode(a), s), USER_CHARS)
    ensures MadeOf(Canon(PathMode(a), s), PATH_CHARS)
    ensures MadeOf(Canon(QueryMode(a), s), QUERY_CHARS)
    ensures MadeOf(Canon(REENCODE_MODE, s), REENCODE_CHARS)
    ensures MadeOf(Canon(COMPONENT_MODE, s), COMPONENT_CHARS)
  {
    hide Keeps, Canon, MadeOf;
    KeptModes(a);
    StoredMadeOf(UserMode(a), USER_CHARS, s);
    StoredMadeOf(PathMode(a), PATH_CHARS, s);
    StoredMadeOf(QueryMode(a), QUERY_CHARS, s);
    StoredMadeOf(REENCODE_MODE, REENCODE_CHARS, s);
    StoredMadeOf(COMPONENT_MODE, COMPONENT_CHARS, s);
  }

  /** Encoded text is stored as it is exactly when it is made of the component's characters. */
  lemma EncodedKept(s: string)
    ensures Canon(UserMode(true), s) == s <==> MadeOf(s, USER_CHARS)
    ensures Canon(PathMode(true), s) == s <==> MadeOf(s, PATH_CHARS)
    ensures Canon(QueryMode(true), s) == s <==> MadeOf(s, QUERY_CHARS)
    ensures Canon(REENCODE_MODE, s) == s <==> MadeOf(s, REENCODE_CHARS)
    ensures Canon(FragmentMode(true), s) == s <==> Visible(s)
  {
    hide Keeps, Canon, MadeOf;
    KeptModes(true);
    StoredMadeOf(UserMode(true), USER_CHARS, s);
    StoredMadeOf(PathMode(true), PATH_CHARS, s);
    StoredMadeOf(QueryMode(true), QUERY_CHARS, s);
    StoredMadeOf(REENCODE_MODE, REENCODE_CHARS, s);
    CanonFixpoint(FragmentMode(true), s);
    StableVisible(s);
  }

  lemma StableVisible(s: string)
    ensures Stable(FragmentMode(true), s) <==> Visible(s)
  {
    forall i | 0 <= i < |s|
      ensures StableChar(FragmentMode(true), s[i]) <==> ' ' <= s[i] && s[i] != '\U{7f}'
    {
    }
  }

  predicate RawPlain(m: Mode, chars: string, c: char)
  {
    (Alphanumeric(c) || c in chars) && c != '%' && !(c == '+' && m.plusIsSpace)
  }

  /** Raw text is stored as it is exactly when it is made of them and holds no percent sign, and no plus sign
      where that means a space. */
  lemma {:induction false} RawKept(m: Mode, chars: string, s: string)
    requires Keeps(m, chars) && !m.alreadyEncoded
    ensures |Canon(m, s)| >= |s|
    ensures Canon(m, s) == s <==> forall i :: 0 <= i < |s| ==> RawPlain(m, chars, s[i])
  {
    hide Keeps, RawPlain, CanonChar, Canon;
    if s == "" {
      CanonEmpty(m);
    } else {
      RawKept(m, chars, s[1..]);
      RawChar(m, chars, s);
      CanonStep(m, s, 0, |s|);
      assert s[0..|s|] == s && s[1..|s|] == s[1..];
      FrontKept(CanonChar(m, s), Canon(m, s[1..]), s);
      assert forall i :: 1 <= i < |s| ==> s[i] == s[1..][i - 1];
      assert forall i :: 0 <= i < |s[1..]| ==> s[1..][i] == s[i + 1];
    }
  }

  lemma FrontKept(c: string, t: string, s: string)
    requires s != "" && (c == [s[0]] || |c| >= 3) && |t| >= |s[1..]|
    ensures c + t == s <==> c == [s[0]] && t == s[1..]
  {
    if c == [s[0]] {
      assert (c + t)[1..] == t;
    }
  }

  lemma RawChar(m: Mode, chars: string, s: string)
    requires Keeps(m, chars) && !m.alreadyEncoded && s != ""
    ensures if RawPlain(m, chars, s[0]) then CanonChar(m, s) == [s[0]] else |CanonChar(m, s)| >= 3
  {
    StableCharMadeOf(m, chars, s[0]);
    hide Keeps, Alphanumeric;
    EscapeLength(EncodeChar(s[0]));
    hide EncodeChar;
  }

  lemma {:induction false} EscapeLength(bytes: seq<Byte>)
    ensures |EscapeBytes(bytes)| == 3 * |bytes|
  {
    if bytes != [] {
      EscapeLength(bytes[1..]);
    }
  }

  // ---------------------------------------------------------------- the URL

  /** The components of every canonical builder. */
  lemma CanonicalChars(b: Builder, host: HostFn)
    requires Canonical(b, host)
    ensures MadeOf(b.username, USER_CHARS) && MadeOf(b.password, USER_CHARS)
    ensures forall i :: 0 <= i < |b.segments| ==> MadeOf(b.segments[i], PATH_CHARS)
    ensures b.query.Some? ==>
              var list := b.query.value;
              forall i :: 0 <= i < |list| && list[i].Some? ==> MadeOf(list[i].value, QUERY_CHARS)
    ensures b.fragment.Some? ==> Visible(b.fragment.value)
  {
    hide Keeps, MadeOf, Stable, IsDot, IsDotDot, Free, HostShape, Visible, Paired;
    KeptModes(true);
    StableMadeOf(UserMode(true), USER_CHARS, b.username);
    StableMadeOf(UserMode(true), USER_CHARS, b.password);
    forall i | 0 <= i < |b.segments|
      ensures MadeOf(b.segments[i], PATH_CHARS)
    {
      assert SegmentOk(b.segments[i]);
      StableMadeOf(PathMode(true), PATH_CHARS, b.segments[i]);
    }
    if b.query.Some? {
      var list := b.query.value;
      forall i | 0 <= i < |list| && list[i].Some?
        ensures MadeOf(list[i].value, QUERY_CHARS)
      {
        assert ComponentOk(list[i], i % 2 == 0);
        StableMadeOf(QueryMode(true), QUERY_CHARS, list[i].value);
      }
    }
    if b.fragment.Some? {
      StableVisible(b.fragment.value);
    }
  }

  // ---------------------------------------------------------------- what java.net.URI gets

  predicate AsciiMadeOf(s: string, chars: string)
  {
    forall i :: 0 <= i < |s| && s[i] < '\U{80}' ==> Alphanumeric(s[i]) || s[i] in chars || s[i] == ' '
  }

  lemma StableOutside(m: Mode, c: char)
    requires StableChar(m, c) && PlainSet(m.encodeSet)
    ensures c !in m.encodeSet
  {
    hide IsHex;
    assert forall i :: 0 <= i < |m.encodeSet| ==> m.encodeSet[i] != '+';
  }

  lemma StableAscii(m: Mode, chars: string, s: string)
    requires Stable(m, s) && Complement(m.encodeSet, chars) && PlainSet(m.encodeSet)
    ensures AsciiMadeOf(s, chars)
  {
    forall i | 0 <= i < |s| && s[i] < '\U{80}'
      ensures Alphanumeric(s[i]) || s[i] in chars || s[i] == ' '
    {
      assert StableChar(m, s[i]);
      StableOutside(m, s[i]);
    }
  }

  lemma UriText(m: Mode, chars: string, s: string)
    requires Complement(m.encodeSet, chars) && PlainSet(m.encodeSet) && m.strict
    ensures AsciiMadeOf(Canon(m, s), chars) && EscapesValid(Canon(m, s))
  {
    hide Complement, PlainSet, Canon, AsciiMadeOf, EscapesValid, Stable;
    CanonOutputStable(m, s, m);
    StableAscii(m, chars, Canon(m, s));
    CanonEscapesValid(m, s);
  }

  /** After `reencodeForUri` each component is made of the characters that `java.net.URI` takes there as well, and
      every percent sign begins an escape; only a fragment keeps characters that are not ASCII. */
  lemma UriChars(b: Builder, host: HostFn)
    requires Canonical(b, host) && WellShaped(b) && HostLaws(host)
    ensures var r := Apply(b, ReencodeForUri, host);
            && r.Ok? && Canonical(r.value, host)
            && (forall i :: 0 <= i < |r.value.segments| ==>
                 AsciiMadeOf(r.value.segments[i], PATH_URI_CHARS) && EscapesValid(r.value.segments[i]))
            && (r.value.query.Some? ==>
                 var list := r.value.query.value;
                 forall i :: 0 <= i < |list| && list[i].Some? ==>
                   AsciiMadeOf(list[i].value, QUERY_URI_CHARS) && EscapesValid(list[i].value))
            && (r.value.fragment.Some? ==>
                 AsciiMadeOf(r.value.fragment.value, FRAGMENT_URI_CHARS) && EscapesValid(r.value.fragment.value))
  {
    ApplyKeepsCanonical(b, ReencodeForUri, host);
    hide Canonical, Complement, PlainSet, Canon, AsciiMadeOf, EscapesValid, Paired;
    PathUriComplement();
    QueryUriComplement();
    FragmentUriComplement();
    UriPlain();
    var r := Apply(b, ReencodeForUri, host).value;
    forall i | 0 <= i < |r.segments|
      ensures AsciiMadeOf(r.segments[i], PATH_URI_CHARS) && EscapesValid(r.segments[i])
    {
      UriText(PATH_URI_MODE, PATH_URI_CHARS, b.segments[i]);
    }
    if r.query.Some? {
      var list := b.query.value;
      forall i | 0 <= i < |list| && list[i].Some?
        ensures AsciiMadeOf(r.query.value[i].value, QUERY_URI_CHARS) && EscapesValid(r.query.value[i].value)
      {
        UriText(QUERY_URI_MODE, QUERY_URI_CHARS, list[i].value);
      }
    }
    if r.fragment.Some? {
      UriText(FRAGMENT_URI_MODE, FRAGMENT_URI_CHARS, b.fragment.value);
    }
  }

  lemma UriPlain()
    ensures PlainSet(PATH_SEGMENT_ENCODE_SET_URI) && PlainSet(QUERY_COMPONENT_ENCODE_SET_URI)
    ensures PlainSet(FRAGMENT_ENCODE_SET_URI)
  {
  }
}
