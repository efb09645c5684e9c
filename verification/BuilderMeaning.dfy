/** What every edit of the builder means: on the decoded components of the URL it is the plain edit, and it leaves
    the others alone. */
module BuilderMeaning {
  import opened Text
  import opened Utf8
  import opened PercentCoding
  import opened CanonMeaning
  import opened QueryString
  import opened UrlBuilder
  import opened UrlCanonical
  import opened HttpUrls

  /** The components as the accessors of `HttpUrl` return them, decoded. */
  datatype View = View(scheme: Option<string>, username: string, password: string, host: Option<string>, port: int,
                       segments: seq<string>, query: Option<NamesAndValues>, fragment: Option<string>)

  function Texts(segs: seq<string>): (r: seq<string>)
    ensures |r| == |segs| && forall i :: 0 <= i < |r| ==> r[i] == PercentDecoded(segs[i], false)
  {
    seq(|segs|, i requires 0 <= i < |segs| => PercentDecoded(segs[i], false))
  }

  function QueryView(query: Option<NamesAndValues>): (v: Option<NamesAndValues>)
  {
    if query.Some? then Some(DecodeList(query.value, true)) else None
  }

  function ViewOf(b: Builder): (v: View)
  {
    View(b.scheme, PercentDecoded(b.username, false), PercentDecoded(b.password, false), b.host, b.port,
         Texts(b.segments), QueryView(b.query), DecodeOption(b.fragment, false))
  }

  /** What a text means that is given in encoded form: tabs and line ends do not count. */
  function Clear(text: string, plusIsSpace: bool): (r: string) { PercentDecoded(Unbroken(text), plusIsSpace) }

  function ClearOption(text: Option<string>, plusIsSpace: bool): (r: Option<string>)
  {
    if text.Some? then Some(Clear(text.value, plusIsSpace)) else None
  }

  function ClearAll(list: NamesAndValues): (r: NamesAndValues)
    ensures |r| == |list| && forall i :: 0 <= i < |r| ==> r[i] == ClearOption(list[i], true)
  {
    seq(|list|, i requires 0 <= i < |list| => ClearOption(list[i], true))
  }

  // ---------------------------------------------------------------- the plain edits

  function PlainPush(segs: seq<string>, s: string, trailingSlash: bool): (r: seq<string>)
    requires segs != []
    ensures r != []
  {
    if s == "." then segs
    else if s == ".." then Pop(segs)
    else
      var pushed := if segs[|segs| - 1] == "" then SetLast(segs, s) else segs + [s];
      if trailingSlash then pushed + [""] else pushed
  }

  /** The pieces between slashes and backslashes, each pushed as what it means. */
  function PlainPushAll(segs: seq<string>, path: string, encoded: bool): (r: seq<string>)
    requires segs != []
    ensures r != []
    decreases |path|
  {
    var k := FirstOf(path, "/\\");
    var pushed := PlainPush(segs, if encoded then Clear(path[..k], false) else path[..k], k < |path|);
    if k < |path| then PlainPushAll(pushed, path[k + 1..], encoded) else pushed
  }

  function PlainReplace(v: View, index: int, s: string): (r: Result<View, Failure>)
  {
    if s == "." || s == ".." then Err(BadSegment)
    else if !(0 <= index < |v.segments|) then Err(BadIndex)
    else Ok(v.(segments := v.segments[index := s]))
  }

  function PlainAdd(query: Option<NamesAndValues>, name: string, value: Option<string>): (r: Option<NamesAndValues>)
  {
    Some((if query.Some? then query.value else []) + [Some(name), value])
  }

  function PlainRemove(query: Option<NamesAndValues>, name: string): (r: Option<NamesAndValues>)
    requires query.Some? ==> |query.value| % 2 == 0
  {
    if query.None? || WithoutName(query.value, name) == [] then None else Some(WithoutName(query.value, name))
  }

  predicate Shaped(v: View) { v.segments != [] && (v.query.Some? ==> |v.query.value| % 2 == 0) }

  /** The plain edit. */
  function PlainEdit(v: View, e: Edit, host: HostFn): (r: Result<View, Failure>)
    requires Shaped(v)
  {
    match e
    case Scheme(t) =>
      if EqualsIgnoreCase(t, "http") then Ok(v.(scheme := Some("http")))
      else if EqualsIgnoreCase(t, "https") then Ok(v.(scheme := Some("https")))
      else Err(BadScheme)
    case Username(t) => Ok(v.(username := t))
    case EncodedUsername(t) => Ok(v.(username := Clear(t, false)))
    case Password(t) => Ok(v.(password := t))
    case EncodedPassword(t) => Ok(v.(password := Clear(t, false)))
    case Host(t) =>
      var h := host(PercentDecoded(t, false));
      if h.None? then Err(BadHost) else Ok(v.(host := h))
    case Port(n) => if 1 <= n <= 65535 then Ok(v.(port := n)) else Err(BadPort)
    case AddPathSegment(t) => Ok(v.(segments := PlainPush(v.segments, t, false)))
    case AddEncodedPathSegment(t) => Ok(v.(segments := PlainPush(v.segments, Clear(t, false), false)))
    case AddPathSegments(t) => Ok(v.(segments := PlainPushAll(v.segments, t, false)))
    case AddEncodedPathSegments(t) => Ok(v.(segments := PlainPushAll(v.segments, t, true)))
    case SetPathSegment(i, t) => PlainReplace(v, i, t)
    case SetEncodedPathSegment(i, t) => PlainReplace(v, i, Clear(t, false))
    case RemovePathSegment(i) =>
      if !(0 <= i < |v.segments|) then Err(BadIndex)
      else if |v.segments| == 1 then Ok(v.(segments := [""]))
      else Ok(v.(segments := v.segments[..i] + v.segments[i + 1..]))
    case EncodedPath(t) =>
      if t == "" || t[0] != '/' then Err(BadPath)
      else Ok(v.(segments := PlainPushAll([""], t[1..], true)))
    case Query(q) => Ok(v.(query := if q.Some? then Some(Split(q.value)) else None))
    case EncodedQuery(q) => Ok(v.(query := if q.Some? then Some(ClearAll(Split(q.value))) else None))
    case AddQueryParameter(n, x) => Ok(v.(query := PlainAdd(v.query, n, x)))
    case AddEncodedQueryParameter(n, x) =>
      Ok(v.(query := PlainAdd(v.query, Clear(n, true), ClearOption(x, true))))
    case SetQueryParameter(n, x) => Ok(v.(query := PlainAdd(PlainRemove(v.query, n), n, x)))
    case SetEncodedQueryParameter(n, x) =>
      var name := Clear(n, true);
      Ok(v.(query := PlainAdd(PlainRemove(v.query, name), name, ClearOption(x, true))))
    case RemoveAllQueryParameters(n) => Ok(v.(query := PlainRemove(v.query, n)))
    case RemoveAllEncodedQueryParameters(n) => Ok(v.(query := PlainRemove(v.query, Clear(n, true))))
    case Fragment(f) => Ok(v.(fragment := f))
    case EncodedFragment(f) => Ok(v.(fragment := ClearOption(f, false)))
    case ReencodeForUri => Ok(v)
  }

  // ---------------------------------------------------------------- dots

  lemma DotByte(b: seq<Byte>)
    requires b != []
    ensures DecodeChar(b).0 == '.' <==> b[0] == 46
    ensures b[0] == 46 ==> DecodeChar(b).1 == 1
  {
  }

  lemma DotFirst(b: seq<Byte>)
    ensures b != [] && b[0] == 46 ==> Decode(b) == "." + Decode(b[1..])
    ensures Decode(b) != "" && Decode(b)[0] == '.' <==> b != [] && b[0] == 46
  {
    hide DecodeChar, Decode;
    if b != [] {
      DotByte(b);
      DecodeStep(b);
    }
  }

  lemma DotBytes(b: seq<Byte>)
    ensures Decode(b) == "." <==> b == [46]
    ensures Decode(b) == ".." <==> b == [46, 46]
  {
    hide Decode;
    DotFirst(b);
    if b != [] && b[0] == 46 {
      var rest := b[1..];
      DotFirst(rest);
      assert b == [46] + rest;
      assert ("." + Decode(rest))[1..] == Decode(rest) && ".."[1..] == "." && "."[1..] == "";
      if rest != [] && rest[0] == 46 {
        assert rest == [46] + rest[1..];
        assert ("." + Decode(rest[1..]))[1..] == Decode(rest[1..]);
      }
    }
  }

  /** A dot, or its escape, at the front of a text. */
  predicate DotInFront(s: string) { s != "" && (s[0] == '.' || (|s| >= 3 && EqualsIgnoreCase(s[..3], "%2e"))) }

  function DotLength(s: string): (n: nat) { if s != "" && s[0] == '.' then 1 else 3 }

  lemma DotHead(s: string)
    requires s != ""
    ensures DotInFront(s) <==> DecodedHead(s, false).0[0] == 46
    ensures DotInFront(s) ==> DecodedHead(s, false).0 == [46]
    ensures DotInFront(s) ==> DecodedHead(s, false).1 == DotLength(s) <= |s|
  {
    if |s| >= 3 {
      assert s[..3][0] == s[0] && s[..3][1] == s[1] && s[..3][2] == s[2];
    }
  }

  lemma DotShape(s: string)
    ensures IsDot(s) <==> DotInFront(s) && |s| == DotLength(s)
  {
    if |s| == 3 {
      assert s[..3] == s;
    }
  }

  lemma SameFront(s: string, i: nat, pattern: string)
    requires i + 3 <= |s| && |pattern| == 3
    ensures EqualsIgnoreCase(s[i..][..3], pattern)
       <==> SameLetter(s[i], pattern[0]) && SameLetter(s[i + 1], pattern[1]) && SameLetter(s[i + 2], pattern[2])
  {
    var t := s[i..][..3];
    assert t[0] == s[i] && t[1] == s[i + 1] && t[2] == s[i + 2];
  }

  lemma DotDotShape(s: string)
    ensures IsDotDot(s) <==> DotInFront(s) && var rest := s[DotLength(s)..];
                                              DotInFront(rest) && |rest| == DotLength(rest)
  {
    if |s| >= 3 {
      SameFront(s, 0, "%2e");
      assert s[0..] == s;
    }
    if 4 <= |s| {
      SameFront(s, 1, "%2e");
    }
    if 6 <= |s| {
      SameFront(s, 3, "%2e");
    }
  }

  lemma OneDotDecoded(s: string)
    ensures DotInFront(s) ==> DotLength(s) <= |s|
    ensures DotInFront(s) && |s| == DotLength(s) <==> DecodedBytes(s, false) == [46]
    ensures DotInFront(s) ==> DecodedBytes(s, false) == [46] + DecodedBytes(s[DotLength(s)..], false)
    ensures DotInFront(s) <==> s != "" && DecodedBytes(s, false)[0] == 46
  {
    hide DecodedHead, EqualsIgnoreCase, DotInFront, DotLength;
    NothingInFront();
    if s != "" {
      DotHead(s);
      OneMore(s);
    }
  }

  lemma DotDecoded(s: string)
    ensures IsDot(s) <==> DecodedBytes(s, false) == [46]
    ensures IsDotDot(s) <==> DecodedBytes(s, false) == [46, 46]
  {
    hide DecodedBytes, IsDot, IsDotDot, DotInFront, DotLength;
    DotShape(s);
    DotDotShape(s);
    OneDotDecoded(s);
    if DotInFront(s) {
      OneDotDecoded(s[DotLength(s)..]);
      var rest := DecodedBytes(s[DotLength(s)..], false);
      assert ([46 as Byte] + rest)[1..] == rest && [46 as Byte, 46][1..] == [46];
    }
  }

  lemma NothingInFront()
    ensures !DotInFront("") && DecodedBytes("", false) == []
  {
  }

  /** The bytes of a text are those of its front and those of the rest, and no bytes mean no text. */
  lemma OneMore(s: string)
    requires s != ""
    ensures var (bytes, n) := DecodedHead(s, false);
            && DecodedBytes(s, false) == bytes + DecodedBytes(s[n..], false)
            && bytes != [] && DecodedBytes(s, false)[0] == bytes[0]
            && (DecodedBytes(s[n..], false) == [] <==> s[n..] == "")
  {
    hide DecodedHead;
  }

  /** Dot segments are those that mean "." and "..", however they are spelled. */
  lemma DotMeaning(s: string)
    ensures IsDot(s) <==> PercentDecoded(s, false) == "."
    ensures IsDotDot(s) <==> PercentDecoded(s, false) == ".."
  {
    hide Decode, DecodedBytes, IsDot, IsDotDot;
    DotDecoded(s);
    DotBytes(DecodedBytes(s, false));
  }

  // ---------------------------------------------------------------- paths

  lemma TextsAppend(segs: seq<string>, s: string)
    ensures Texts(segs + [s]) == Texts(segs) + [PercentDecoded(s, false)]
  {
    hide PercentDecoded;
  }

  lemma TextsWithout(segs: seq<string>, i: nat)
    requires i < |segs|
    ensures Texts(segs[..i] + segs[i + 1..]) == Texts(segs)[..i] + Texts(segs)[i + 1..]
  {
    hide PercentDecoded;
  }

  lemma TextsPop(segs: seq<string>)
    requires segs != []
    ensures Texts(Pop(segs)) == Pop(Texts(segs))
  {
    hide Decode, DecodedBytes;
    assert Texts(segs[..|segs| - 1]) == Texts(segs)[..|segs| - 1];
    NothingDecoded();
  }

  lemma TextsSetLast(segs: seq<string>, s: string)
    requires segs != []
    ensures Texts(SetLast(segs, s)) == SetLast(Texts(segs), PercentDecoded(s, false))
  {
    hide PercentDecoded;
  }

  lemma NothingDecoded()
    ensures PercentDecoded("", false) == ""
  {
  }

  lemma PushCanonicalMeaning(segs: seq<string>, s: string, slash: bool)
    requires segs != []
    ensures Texts(PushCanonical(segs, s, slash)) == PlainPush(Texts(segs), PercentDecoded(s, false), slash)
  {
    hide PercentDecoded, IsDot, IsDotDot, Pop, SetLast, Texts;
    DotMeaning(s);
    TextsPop(segs);
    TextsSetLast(segs, s);
    TextsAppend(segs, s);
    NothingDecoded();
    var pushed := if segs[|segs| - 1] == "" then SetLast(segs, s) else segs + [s];
    TextsAppend(pushed, "");
  }

  lemma PushMeaning(segs: seq<string>, text: string, slash: bool, encoded: bool)
    requires segs != []
    ensures Texts(Push(segs, text, slash, encoded))
         == PlainPush(Texts(segs), if encoded then Clear(text, false) else text, slash)
  {
    hide Canon, PercentDecoded, PushCanonical, PlainPush, Texts, Unbroken, PlainSet;
    PushCanonicalMeaning(segs, Canon(PathMode(encoded), text), slash);
    PlainSets();
    CanonMeans(PathMode(encoded), text);
  }

  /** What `canonicalize` makes of a text means what the text meant. */
  lemma CanonMeans(m: Mode, text: string)
    requires PlainSet(m.encodeSet) && !m.strict
    ensures PercentDecoded(Canon(m, text), m.plusIsSpace)
         == if m.alreadyEncoded then Clear(text, m.plusIsSpace) else text
  {
    hide Canon, PercentDecoded, Unbroken, PlainSet, BrokenEscape, Clean;
    if m.alreadyEncoded {
      EncodedTextKept(m, text);
    } else {
      DecodeUndoesCanon(m, text);
    }
  }

  lemma {:induction false} AddSegmentsMeaning(segs: seq<string>, text: string, encoded: bool)
    requires segs != []
    ensures Texts(AddSegments(segs, text, encoded)) == PlainPushAll(Texts(segs), text, encoded)
    decreases |text|
  {
    hide Push, PlainPush, FirstOf, Texts, Clear;
    var k := FirstOf(text, "/\\");
    PushMeaning(segs, text[..k], k < |text|, encoded);
    if k < |text| {
      AddSegmentsMeaning(Push(segs, text[..k], true, encoded), text[k + 1..], encoded);
    }
  }

  /** Behind a slash, `resolvePath` and `addEncodedPathSegments` do the same. */
  lemma {:induction false} PushAllAdds(segs: seq<string>, path: string)
    requires segs != [] && segs[|segs| - 1] == ""
    ensures PushAll(segs, path) == AddSegments(segs, path, true)
    decreases |path|
  {
    hide Push, FirstOf;
    if path == "" {
      EmptyPushed(segs);
    } else {
      var k := FirstOf(path, "/\\");
      if k < |path| {
        PushAllAdds(Push(segs, path[..k], true, true), path[k + 1..]);
      }
    }
  }

  lemma EmptyPushed(segs: seq<string>)
    requires segs != [] && segs[|segs| - 1] == ""
    ensures FirstOf("", "/\\") == 0 && Push(segs, "", false, true) == segs
  {
    CanonEmpty(PathMode(true));
  }

  // ---------------------------------------------------------------- queries

  predicate KeepsSeparators(m: Mode) { !m.strict && '&' !in m.encodeSet && '=' !in m.encodeSet }

  lemma {:induction false} NoSeparatorMade(m: Mode, s: string, c: char)
    requires (c == '&' || c == '=') && c !in s
    ensures c !in Canon(m, s)
  {
    if s != "" {
      NoSeparatorMade(m, s[1..], c);
      NoSeparatorEscaped(EncodeChar(s[0]), c);
    }
  }

  lemma {:induction false} NoSeparatorEscaped(bytes: seq<Byte>, c: char)
    requires c == '&' || c == '='
    ensures c !in EscapeBytes(bytes)
  {
    if bytes != [] {
      NoSeparatorEscaped(bytes[1..], c);
      HexNoSeparator((bytes[0] / 16) as int);
      HexNoSeparator((bytes[0] % 16) as int);
    }
  }

  lemma HexNoSeparator(d: nat)
    requires d < 16
    ensures HexDigit(d) != '&' && HexDigit(d) != '='
  {
    assert HexValue('&') == -1 && HexValue('=') == -1;
  }

  lemma SeparatorKept(m: Mode, c: char, s: string)
    requires KeepsSeparators(m) && (c == '&' || c == '=')
    ensures Canon(m, [c] + s) == [c] + Canon(m, s)
  {
    assert ([c] + s)[1..] == s;
  }

  /** The first separator of the output comes from the first one of the text. */
  lemma CanonCut(m: Mode, s: string, c: char, k: nat)
    requires KeepsSeparators(m) && (c == '&' || c == '=') && k == FirstOf(s, [c])
    ensures var r, front := Canon(m, s), Canon(m, s[..k]);
            && FirstOf(r, [c]) == |front| && r[..|front|] == front
            && (k == |s| <==> |front| == |r|)
            && (k < |s| ==> r[|front| + 1..] == Canon(m, s[k + 1..]))
  {
    hide Canon, FirstOf;
    assert c !in s[..k];
    NoSeparatorMade(m, s[..k], c);
    var front := Canon(m, s[..k]);
    if k < |s| {
      assert s == s[..k] + ([c] + s[k + 1..]);
      CanonConcat(m, s[..k], [c] + s[k + 1..]);
      SeparatorKept(m, c, s[k + 1..]);
      FoundBehind(front, c, Canon(m, s[k + 1..]));
    } else {
      assert s[..k] == s;
      assert front + "" == front;
      NotFound(front, c);
    }
  }

  lemma FoundBehind(front: string, c: char, rest: string)
    requires c !in front
    ensures var r := front + ([c] + rest);
            FirstOf(r, [c]) == |front| && r[..|front|] == front && r[|front| + 1..] == rest && |front| < |r|
  {
    var r := front + ([c] + rest);
    assert r[|front|] == c && forall i :: 0 <= i < |front| ==> r[i] == front[i];
  }

  lemma NotFound(front: string, c: char)
    requires c !in front
    ensures FirstOf(front, [c]) == |front|
  {
  }

  lemma PairCanon(m: Mode, text: string)
    requires KeepsSeparators(m)
    ensures SplitPair(Canon(m, text)) == CanonAll(m, SplitPair(text))
  {
    hide Canon, FirstOf;
    CanonCut(m, text, '=', FirstOf(text, "="));
  }

  /** Splitting a canonical query is canonicalising the parts. */
  lemma {:induction false} SplitCanon(m: Mode, q: string)
    requires KeepsSeparators(m)
    ensures Split(Canon(m, q)) == CanonAll(m, Split(q))
    decreases |q|
  {
    hide Canon, FirstOf, Split, SplitPair, KeepsSeparators, Paired;
    var k := FirstOf(q, "&");
    CanonCut(m, q, '&', k);
    SplitCons(q, k);
    SplitCons(Canon(m, q), |Canon(m, q[..k])|);
    PairCanon(m, q[..k]);
    if k < |q| {
      SplitCanon(m, q[k + 1..]);
      CanonAllConcat(m, SplitPair(q[..k]), Split(q[k + 1..]));
    } else {
      assert SplitPair(q[..k]) + [] == SplitPair(q[..k]);
      assert SplitPair(Canon(m, q[..k])) + [] == SplitPair(Canon(m, q[..k]));
    }
  }

  lemma CanonAllConcat(m: Mode, a: NamesAndValues, b: NamesAndValues)
    ensures CanonAll(m, a + b) == CanonAll(m, a) + CanonAll(m, b)
  {
    hide Canon;
  }

  lemma CanonAllMeans(m: Mode, list: NamesAndValues)
    requires PlainSet(m.encodeSet) && !m.strict && m.plusIsSpace
    ensures DecodeList(CanonAll(m, list), true) == if m.alreadyEncoded then ClearAll(list) else list
  {
    hide Canon, Clear, PercentDecoded, PlainSet;
    forall i | 0 <= i < |list| && list[i].Some?
      ensures PercentDecoded(Canon(m, list[i].value), true)
           == if m.alreadyEncoded then Clear(list[i].value, true) else list[i].value
    {
      CanonMeans(m, list[i].value);
    }
  }

  lemma QueryMeaning(encoded: bool, q: string)
    ensures DecodeList(Split(Canon(QueryMode(encoded), q)), true) == if encoded then ClearAll(Split(q)) else Split(q)
  {
    hide Canon, Split, ClearAll, CanonAll, PlainSet;
    SplitCanon(QueryMode(encoded), q);
    PlainSets();
    CanonAllMeans(QueryMode(encoded), Split(q));
  }

  lemma AddMeaning(query: Option<NamesAndValues>, m: Mode, name: string, value: Option<string>)
    requires PlainSet(m.encodeSet) && !m.strict && m.plusIsSpace
    ensures var r := AddParameter(query, m, name, value);
            QueryView(r) == PlainAdd(QueryView(query), if m.alreadyEncoded then Clear(name, true) else name,
                                     if m.alreadyEncoded then ClearOption(value, true) else value)
  {
    hide Canon, Clear, PercentDecoded, PlainSet;
    CanonMeans(m, name);
    if value.Some? {
      CanonMeans(m, value.value);
    }
    var list := if query.Some? then query.value else [];
    var pair := [Some(Canon(m, name)), if value.Some? then Some(Canon(m, value.value)) else None];
    DecodeListConcat(list, pair);
    assert query.None? ==> DecodeList(list, true) == [];
    assert DecodeList(pair, true) == [Some(if m.alreadyEncoded then Clear(name, true) else name),
                                      if m.alreadyEncoded then ClearOption(value, true) else value];
  }

  // ---------------------------------------------------------------- removing parameters

  /** Every stored name that means `name` is spelled `canonicalName`. */
  predicate SpelledAlike(list: NamesAndValues, canonicalName: string, name: string)
  {
    forall i :: 0 <= i < |list| && i % 2 == 0 && list[i].Some? && PercentDecoded(list[i].value, true) == name ==>
      list[i].value == canonicalName
  }

  lemma AlikeStep(list: NamesAndValues, canonicalName: string, name: string)
    requires Paired(list) && list != []
    ensures Paired(list[2..])
    ensures SpelledAlike(list, canonicalName, name)
       <==> SpelledAlike(list[2..], canonicalName, name)
            && (PercentDecoded(list[0].value, true) == name ==> list[0].value == canonicalName)
  {
    hide PercentDecoded;
    var rest := list[2..];
    assert forall i :: 0 <= i < |rest| ==> rest[i] == list[i + 2];
    assert forall i :: 2 <= i < |list| ==> list[i] == rest[i - 2];
  }

  /** What removing leaves of one list, after its first pair. */
  lemma WithoutStep(list: NamesAndValues, canonicalName: string)
    requires |list| % 2 == 0 && list != []
    ensures DecodeList(WithoutName(list, canonicalName), true)
         == (if list[0] == Some(canonicalName) then [] else DecodeList(list, true)[..2])
            + DecodeList(WithoutName(list[2..], canonicalName), true)
    ensures DecodeList(list, true)[2..] == DecodeList(list[2..], true)
  {
    hide DecodeOption;
    var kept := WithoutName(list[2..], canonicalName);
    DecodeListConcat(list[..2], kept);
    assert DecodeList(list[..2], true) == DecodeList(list, true)[..2];
    assert [] + kept == kept && [] + DecodeList(kept, true) == DecodeList(kept, true);
  }

  /** Removing by spelling removes what removing by meaning does, or less. */
  predicate RemovedAlike(list: NamesAndValues, canonicalName: string, name: string)
    requires |list| % 2 == 0
  {
    var kept, plain := DecodeList(WithoutName(list, canonicalName), true), WithoutName(DecodeList(list, true), name);
    if SpelledAlike(list, canonicalName, name) then kept == plain else |kept| > |plain|
  }

  lemma RemovedStep(list: NamesAndValues, canonicalName: string, name: string)
    requires Paired(list) && list != [] && PercentDecoded(canonicalName, true) == name
    requires RemovedAlike(list[2..], canonicalName, name)
    ensures RemovedAlike(list, canonicalName, name)
  {
    AlikeStep(list, canonicalName, name);
    FirstSpelled(list, canonicalName, name);
    hide WithoutName, SpelledAlike, Paired, PercentDecoded;
    var view, rest := DecodeList(list, true), list[2..];
    WithoutStep(list, canonicalName);
    PlainStep(view, name);
    Combined(view[..2], DecodeList(WithoutName(rest, canonicalName), true), WithoutName(view[2..], name),
             list[0] != Some(canonicalName), view[0] != Some(name), SpelledAlike(rest, canonicalName, name));
  }

  lemma {:induction false} RemovedNames(list: NamesAndValues, canonicalName: string, name: string)
    requires Paired(list) && PercentDecoded(canonicalName, true) == name
    ensures RemovedAlike(list, canonicalName, name)
    decreases |list|
  {
    if list != [] {
      hide PercentDecoded, RemovedAlike, Paired;
      AlikeStep(list, canonicalName, name);
      PairLess(list);
      RemovedNames(list[2..], canonicalName, name);
      RemovedStep(list, canonicalName, name);
    }
  }

  lemma PairLess(list: NamesAndValues)
    requires Paired(list) && list != []
    ensures |list| >= 2 && |list| % 2 == 0
  {
  }

  lemma FirstSpelled(list: NamesAndValues, canonicalName: string, name: string)
    requires Paired(list) && list != [] && PercentDecoded(canonicalName, true) == name
    ensures var view := DecodeList(list, true);
            && (list[0] == Some(canonicalName) ==> view[0] == Some(name))
            && ((PercentDecoded(list[0].value, true) == name ==> list[0].value == canonicalName)
                <==> (view[0] == Some(name) ==> list[0] == Some(canonicalName)))
  {
    hide PercentDecoded;
  }

  lemma Combined(pair: NamesAndValues, kept: NamesAndValues, plain: NamesAndValues,
                 keeps: bool, plainKeeps: bool, alike: bool)
    requires |pair| == 2 && (plainKeeps ==> keeps) && if alike then kept == plain else |kept| > |plain|
    ensures var k, p := (if keeps then pair else []) + kept, (if plainKeeps then pair else []) + plain;
            if alike && keeps == plainKeeps then k == p else |k| > |p|
  {
  }

  lemma PlainStep(view: NamesAndValues, name: string)
    requires |view| % 2 == 0 && view != []
    ensures WithoutName(view, name)
         == (if view[0] == Some(name) then [] else view[..2]) + WithoutName(view[2..], name)
  {
  }

  lemma DecodeListConcat(a: NamesAndValues, b: NamesAndValues)
    ensures DecodeList(a + b, true) == DecodeList(a, true) + DecodeList(b, true)
  {
    hide DecodeOption;
  }

  /** The stored names let a removal of `text`, raw or encoded, find what it means. */
  predicate Finds(query: Option<NamesAndValues>, m: Mode, text: string)
  {
    query.Some? ==> SpelledAlike(query.value, Canon(m, text), PercentDecoded(Canon(m, text), m.plusIsSpace))
  }

  lemma RemoveMeaning(query: Option<NamesAndValues>, m: Mode, text: string)
    requires query.Some? ==> Paired(query.value)
    requires PlainSet(m.encodeSet) && !m.strict && m.plusIsSpace
    ensures var name := if m.alreadyEncoded then Clear(text, true) else text;
            var r, plain := QueryView(RemoveParameters(query, Canon(m, text))), PlainRemove(QueryView(query), name);
            if Finds(query, m, text) then r == plain
            else r.Some? && |r.value| > if plain.Some? then |plain.value| else 0
  {
    hide Canon, PercentDecoded, Paired, Clear, PlainSet, SpelledAlike;
    CanonMeans(m, text);
    if query.Some? {
      RemovedNames(query.value, Canon(m, text), PercentDecoded(Canon(m, text), true));
    }
  }

  lemma SetMeaning(query: Option<NamesAndValues>, m: Mode, text: string, value: Option<string>)
    requires query.Some? ==> Paired(query.value)
    requires PlainSet(m.encodeSet) && !m.strict && m.plusIsSpace
    ensures var name := if m.alreadyEncoded then Clear(text, true) else text;
            var x := if m.alreadyEncoded then ClearOption(value, true) else value;
            (QueryView(AddParameter(RemoveParameters(query, Canon(m, text)), m, text, value))
             == PlainAdd(PlainRemove(QueryView(query), name), name, x)
             <==> Finds(query, m, text))
  {
    hide Canon, PercentDecoded, Clear, ClearOption, PlainSet, Finds, PlainRemove, RemoveParameters, DecodeList;
    RemoveMeaning(query, m, text);
    AddMeaning(RemoveParameters(query, Canon(m, text)), m, text, value);
  }

  // ---------------------------------------------------------------- reencodeForUri

  lemma StableClean(m: Mode, s: string)
    requires Stable(m, s)
    ensures Clean(s)
  {
    forall i | 0 <= i < |s|
      ensures !IsBreak(s[i])
    {
      assert StableChar(m, s[i]);
    }
  }

  /** A strict pass over a text without tabs and line ends keeps its meaning. */
  lemma ReencodedMeans(m: Mode, stable: Mode, s: string)
    requires m.alreadyEncoded && PlainSet(m.encodeSet) && Stable(stable, s)
    ensures PercentDecoded(Canon(m, s), m.plusIsSpace) == PercentDecoded(s, m.plusIsSpace)
  {
    hide Canon, PercentDecoded, PlainSet, Stable;
    StableClean(stable, s);
    CleanKept(s);
    EncodedTextKept(m, s);
  }

  lemma UriSets()
    ensures PlainSet(PATH_URI_MODE.encodeSet) && PlainSet(QUERY_URI_MODE.encodeSet)
    ensures PlainSet(FRAGMENT_URI_MODE.encodeSet)
  {
  }

  lemma ComponentSets()
    ensures PlainSet(COMPONENT_MODE.encodeSet) && PlainSet(REENCODE_MODE.encodeSet) && PlainSet("")
  {
  }

  lemma ReencodeMeaning(b: Builder, host: HostFn)
    requires Canonical(b, host) && WellShaped(b)
    ensures var r := Apply(b, ReencodeForUri, host); r.Ok? && ViewOf(r.value) == ViewOf(b)
  {
    hide Canon, PercentDecoded, PlainSet, Stable, HostShape, IsDot, IsDotDot, Free, Paired;
    UriSets();
    var r := Apply(b, ReencodeForUri, host).value;
    forall i | 0 <= i < |b.segments|
      ensures PercentDecoded(r.segments[i], false) == PercentDecoded(b.segments[i], false)
    {
      assert SegmentOk(b.segments[i]);
      ReencodedMeans(PATH_URI_MODE, PathMode(true), b.segments[i]);
    }
    assert Texts(r.segments) == Texts(b.segments);
    if b.query.Some? {
      var list := b.query.value;
      forall i | 0 <= i < |list| && list[i].Some?
        ensures PercentDecoded(Canon(QUERY_URI_MODE, list[i].value), true) == PercentDecoded(list[i].value, true)
      {
        assert ComponentOk(list[i], i % 2 == 0);
        ReencodedMeans(QUERY_URI_MODE, QueryMode(true), list[i].value);
      }
      assert DecodeList(r.query.value, true) == DecodeList(list, true);
    }
    if b.fragment.Some? {
      ReencodedMeans(FRAGMENT_URI_MODE, FragmentMode(true), b.fragment.value);
    }
  }

  // ---------------------------------------------------------------- every edit

  /** Removals go by spelling; for all other edits there is nothing to find. */
  predicate Recognised(b: Builder, e: Edit)
  {
    match e
    case SetQueryParameter(n, _) => Finds(b.query, COMPONENT_MODE, n)
    case SetEncodedQueryParameter(n, _) => Finds(b.query, REENCODE_MODE, n)
    case RemoveAllQueryParameters(n) => Finds(b.query, COMPONENT_MODE, n)
    case RemoveAllEncodedQueryParameters(n) => Finds(b.query, REENCODE_MODE, n)
    case _ => true
  }

  /** A name that was given in another spelling is kept: `%61` means "a", and is not removed with it. */
  lemma SpellingKept(host: HostFn)
    ensures var b := FRESH.(query := Some([Some("%61"), None]));
            && Apply(FRESH, EncodedQuery(Some("%61")), host) == Ok(b)
            && Apply(b, RemoveAllQueryParameters("a"), host) == Ok(b)
    ensures var v := ViewOf(FRESH.(query := Some([Some("%61"), None])));
            && v.query == Some([Some("a"), None])
            && PlainEdit(v, RemoveAllQueryParameters("a"), host) == Ok(v.(query := None))
  {
    PlainSpelling();
    EscapedSpelling();
    EscapedName();
    hide Canon, PercentDecoded, Split, Texts;
    var stored: NamesAndValues := [Some("%61"), None];
    var list: NamesAndValues := [Some("a"), None];
    OtherKept(stored, "a");
    assert DecodeList(stored, true) == list;
    OneRemoved(list, "a");
    hide WithoutName;
  }

  lemma OtherKept(list: NamesAndValues, name: string)
    requires |list| == 2 && list[0] != Some(name)
    ensures RemoveParameters(Some(list), name) == Some(list)
  {
    assert list[2..] == [] && list[..2] == list && WithoutName(list[2..], name) == [];
    assert list + [] == list;
  }

  lemma OneRemoved(list: NamesAndValues, name: string)
    requires |list| == 2 && list[0] == Some(name)
    ensures PlainRemove(Some(list), name) == None
  {
    assert list[2..] == [] && WithoutName(list[2..], name) == [];
    assert |WithoutName(list, name)| == 0;
  }

  lemma PlainSpelling()
    ensures Canon(COMPONENT_MODE, "a") == "a"
  {
    assert forall i :: 0 <= i < |QUERY_COMPONENT_ENCODE_SET| ==> QUERY_COMPONENT_ENCODE_SET[i] != 'a';
    assert "a"[1..] == "";
  }

  lemma EscapedSpelling()
    ensures Canon(QueryMode(true), "%61") == "%61"
  {
    hide Canon, PlainSet;
    PlainSets();
    assert forall i :: 0 <= i < 3 ==> StableChar(QueryMode(true), "%61"[i]);
    StableUnchanged(QueryMode(true), "%61");
  }

  lemma EscapedName()
    ensures Split("%61") == [Some("%61"), None] && PercentDecoded("%61", true) == "a"
  {
    assert forall i :: 0 <= i < 3 ==> "%61"[i] != '&' && "%61"[i] != '=';
    assert FirstOf("%61", "&") == 3 && FirstOf("%61", "=") == 3;
    assert "%61"[3..] == "";
    assert DecodedBytes("%61", true) == [0x61] + DecodedBytes("", true);
    assert Decode([0x61]) == "a" + Decode([]);
  }

  /** The edit fails as the plain one does, or its result means what the plain one gives. */
  predicate Agrees(b: Builder, e: Edit, host: HostFn)
    requires WellShaped(b)
  {
    match Apply(b, e, host)
    case Err(f) => PlainEdit(ViewOf(b), e, host) == Err(f)
    case Ok(r) => PlainEdit(ViewOf(b), e, host) == Ok(ViewOf(r))
  }

  predicate IsPathEdit(e: Edit)
  {
    || e.AddPathSegment? || e.AddEncodedPathSegment? || e.AddPathSegments? || e.AddEncodedPathSegments?
    || e.SetPathSegment? || e.SetEncodedPathSegment? || e.RemovePathSegment? || e.EncodedPath?
  }

  predicate IsQueryEdit(e: Edit)
  {
    || e.Query? || e.EncodedQuery? || e.AddQueryParameter? || e.AddEncodedQueryParameter?
    || IsRemoval(e)
  }

  predicate IsRemoval(e: Edit)
  {
    || e.SetQueryParameter? || e.SetEncodedQueryParameter?
    || e.RemoveAllQueryParameters? || e.RemoveAllEncodedQueryParameters?
  }

  lemma TextMeaning(b: Builder, e: Edit, host: HostFn)
    requires WellShaped(b) && !IsPathEdit(e) && !IsQueryEdit(e) && !e.ReencodeForUri?
    ensures Agrees(b, e, host)
  {
    hide Canon, PercentDecoded, PlainSet, Unbroken, EqualsIgnoreCase, Texts, Paired;
    PlainSets();
    ComponentSets();
    match e
    case Username(t) => CanonMeans(UserMode(false), t);
    case EncodedUsername(t) => CanonMeans(UserMode(true), t);
    case Password(t) => CanonMeans(UserMode(false), t);
    case EncodedPassword(t) => CanonMeans(UserMode(true), t);
    case Fragment(f) => if f.Some? { CanonMeans(FragmentMode(false), f.value); }
    case EncodedFragment(f) => if f.Some? { CanonMeans(FragmentMode(true), f.value); }
    case _ =>
  }

  lemma WithSegmentMeaning(b: Builder, i: int, text: string, encoded: bool)
    requires WellShaped(b)
    ensures var plain := PlainReplace(ViewOf(b), i, if encoded then Clear(text, false) else text);
            match WithSegment(b, i, Canon(PathMode(encoded), text))
            case Err(f) => plain == Err(f)
            case Ok(r) => WellShaped(r) && plain == Ok(ViewOf(r))
  {
    hide Canon, PercentDecoded, PlainSet, Unbroken, IsDot, IsDotDot, Paired;
    PlainSets();
    CanonMeans(PathMode(encoded), text);
    var s := Canon(PathMode(encoded), text);
    DotMeaning(s);
    if 0 <= i < |b.segments| {
      assert Texts(b.segments[i := s]) == Texts(b.segments)[i := PercentDecoded(s, false)];
    }
  }

  lemma PathMeaning(b: Builder, e: Edit, host: HostFn)
    requires WellShaped(b) && IsPathEdit(e)
    ensures Agrees(b, e, host)
  {
    hide Canon, PercentDecoded, Push, PlainPush, AddSegments, PlainPushAll, PushAll, Paired, WithSegment, Clear,
      PlainReplace;
    match e
    case AddPathSegment(t) => PushMeaning(b.segments, t, false, false);
    case AddEncodedPathSegment(t) => PushMeaning(b.segments, t, false, true);
    case AddPathSegments(t) => AddSegmentsMeaning(b.segments, t, false);
    case AddEncodedPathSegments(t) => AddSegmentsMeaning(b.segments, t, true);
    case SetPathSegment(i, t) => WithSegmentMeaning(b, i, t, false);
    case SetEncodedPathSegment(i, t) => WithSegmentMeaning(b, i, t, true);
    case RemovePathSegment(i) =>
      NothingDecoded();
      assert Texts([""]) == [""];
      if 0 <= i < |b.segments| {
        TextsWithout(b.segments, i);
      }
    case EncodedPath(t) =>
      if t != "" && t[0] == '/' {
        PushAllAdds([""], t[1..]);
        AddSegmentsMeaning([""], t[1..], true);
        NothingDecoded();
        assert Texts([""]) == [""];
      }
  }

  lemma QueryEditMeaning(b: Builder, e: Edit, host: HostFn)
    requires WellShaped(b) && IsQueryEdit(e) && !IsRemoval(e)
    ensures Agrees(b, e, host)
  {
    hide Canon, PercentDecoded, Split, AddParameter, PlainAdd, Clear, ClearAll, Texts, Paired, PlainSet;
    ComponentSets();
    match e
    case Query(q) => if q.Some? { QueryMeaning(false, q.value); }
    case EncodedQuery(q) => if q.Some? { QueryMeaning(true, q.value); }
    case AddQueryParameter(n, v) => AddMeaning(b.query, COMPONENT_MODE, n, v);
    case AddEncodedQueryParameter(n, v) => AddMeaning(b.query, REENCODE_MODE, n, v);
  }

  lemma RemovalMeaning(b: Builder, e: Edit, host: HostFn)
    requires WellShaped(b) && IsRemoval(e)
    ensures Agrees(b, e, host) <==> Recognised(b, e)
  {
    hide Canon, PercentDecoded, RemoveParameters, PlainRemove, Clear, Texts, PlainSet, Finds;
    ComponentSets();
    match e
    case RemoveAllQueryParameters(n) => RemoveMeaning(b.query, COMPONENT_MODE, n);
    case RemoveAllEncodedQueryParameters(n) => RemoveMeaning(b.query, REENCODE_MODE, n);
    case SetQueryParameter(n, v) => SetMeaning(b.query, COMPONENT_MODE, n, v);
    case SetEncodedQueryParameter(n, v) => SetMeaning(b.query, REENCODE_MODE, n, v);
  }

  /** Every edit of a canonical builder is the plain edit of the decoded components and leaves the others alone; a
      removal is so exactly when the names that mean the same are stored in the spelling that it looks for. */
  lemma EditMeaning(b: Builder, e: Edit, host: HostFn)
    requires Canonical(b, host) && WellShaped(b)
    ensures Agrees(b, e, host) <==> Recognised(b, e)
  {
    hide Agrees, Canonical;
    if e.ReencodeForUri? {
      ReencodeMeaning(b, host);
      ReencodeAgrees(b, host);
    } else if IsPathEdit(e) {
      PathMeaning(b, e, host);
    } else if IsRemoval(e) {
      RemovalMeaning(b, e, host);
    } else if IsQueryEdit(e) {
      QueryEditMeaning(b, e, host);
    } else {
      TextMeaning(b, e, host);
    }
  }

  lemma ReencodeAgrees(b: Builder, host: HostFn)
    requires WellShaped(b)
    requires var r := Apply(b, ReencodeForUri, host); r.Ok? && ViewOf(r.value) == ViewOf(b)
    ensures Agrees(b, ReencodeForUri, host)
  {
    hide ViewOf, Canon;
  }

  // ---------------------------------------------------------------- whole histories, and the built URL

  /** The edits one after the other, until one fails. */
  function ApplyAll(b: Builder, es: seq<Edit>, host: HostFn): (r: Result<Builder, Failure>)
    requires Canonical(b, host) && WellShaped(b) && HostLaws(host)
    ensures r.Ok? ==> Canonical(r.value, host) && WellShaped(r.value)
    decreases |es|
  {
    if es == [] then Ok(b)
    else
      match Apply(b, es[0], host)
      case Err(f) => Err(f)
      case Ok(next) =>
        ApplyKeepsCanonical(b, es[0], host);
        ApplyAll(next, es[1..], host)
  }

  lemma PlainShaped(v: View, e: Edit, host: HostFn)
    requires Shaped(v)
    ensures var r := PlainEdit(v, e, host); r.Ok? ==> Shaped(r.value)
  {
    hide Clear, Unbroken, PercentDecoded, EqualsIgnoreCase, PlainPush, PlainPushAll, FirstOf;
  }

  function PlainAll(v: View, es: seq<Edit>, host: HostFn): (r: Result<View, Failure>)
    requires Shaped(v)
    decreases |es|
  {
    if es == [] then Ok(v)
    else
      match PlainEdit(v, es[0], host)
      case Err(f) => Err(f)
      case Ok(next) => PlainShaped(v, es[0], host); PlainAll(next, es[1..], host)
  }

  predicate AllRecognised(b: Builder, es: seq<Edit>, host: HostFn)
    requires Canonical(b, host) && WellShaped(b) && HostLaws(host)
    decreases |es|
  {
    es == [] || (Recognised(b, es[0])
                 && match Apply(b, es[0], host)
                    case Err(_) => true
                    case Ok(next) => ApplyKeepsCanonical(b, es[0], host); AllRecognised(next, es[1..], host))
  }

  /** Any history of edits is the same history on the decoded components. */
  lemma {:induction false} HistoryMeaning(b: Builder, es: seq<Edit>, host: HostFn)
    requires Canonical(b, host) && WellShaped(b) && HostLaws(host) && AllRecognised(b, es, host)
    ensures match ApplyAll(b, es, host)
            case Err(f) => PlainAll(ViewOf(b), es, host) == Err(f)
            case Ok(r) => PlainAll(ViewOf(b), es, host) == Ok(ViewOf(r))
    decreases |es|
  {
    hide Apply, PlainEdit, Recognised, Texts, Stable, SegmentOk, ComponentsOk, HostShape, PercentDecoded, DecodeList;
    if es != [] {
      EditMeaning(b, es[0], host);
      if Apply(b, es[0], host).Ok? {
        ApplyKeepsCanonical(b, es[0], host);
        HistoryMeaning(Apply(b, es[0], host).value, es[1..], host);
      }
    }
  }

  /** A URL can be built exactly from a builder with scheme and host, and its accessors then return the components;
      the port that was not set is the scheme's. */
  lemma BuiltView(b: Builder, host: HostFn)
    requires Canonical(b, host) && WellShaped(b)
    ensures Build(b).Ok? <==> b.scheme.Some? && b.host.Some?
    ensures Build(b).Ok? ==>
              var u, v := Build(b).value, ViewOf(b);
              && v == View(Some(u.scheme), u.username, u.password, Some(u.host), b.port, u.pathSegments, u.query,
                           u.fragment)
              && u.port == if b.port != -1 then b.port else if u.scheme == "http" then 80 else 443
  {
    hide Print, PercentDecoded, Stable, SegmentOk, HostShape;
  }
}
