/** What every builder state reached through the API looks like. */
module UrlCanonical {
  import opened Text
  import opened Utf8
  import opened PercentCoding
  import opened QueryString
  import opened UrlBuilder

  // ---------------------------------------------------------------- invariant

  /** What is assumed of the host canonicaliser: an accepted host is not empty, holds no URL
      delimiter, and is its own canonical form when printed. */
  predicate HostShape(host: HostFn, h: string)
  {
    h != "" && Free(h, "@/\\?#[]%") && host(HostText(h)) == Some(h)
  }

  ghost predicate HostLaws(host: HostFn)
  {
    forall s :: host(s).Some? ==> HostShape(host, host(s).value)
  }

  /** A canonicaliser that takes plain lower-case names as they are and refuses the rest. */
  function PlainNames(s: string): (r: Option<string>)
  {
    if s != "" && forall i :: 0 <= i < |s| ==> 'a' <= s[i] <= 'z' || s[i] == '.' then Some(s) else None
  }

  /** The assumptions can be met by a canonicaliser that accepts hosts. */
  lemma PlainNamesObey()
    ensures HostLaws(PlainNames) && PlainNames("example.com") == Some("example.com")
  {
  }

  predicate SegmentOk(s: string)
  {
    Stable(PathMode(true), s) && !IsDot(s) && !IsDotDot(s)
  }

  predicate SegmentsOk(segs: seq<string>)
  {
    segs != [] && forall i :: 0 <= i < |segs| ==> SegmentOk(segs[i])
  }

  predicate ComponentOk(c: Option<string>, isName: bool)
  {
    c.Some? ==> Stable(QueryMode(true), c.value) && Free(c.value, if isName then "&=" else "&")
  }

  predicate ComponentsOk(list: NamesAndValues)
  {
    forall i :: 0 <= i < |list| ==> ComponentOk(list[i], i % 2 == 0)
  }

  predicate QueryOk(list: NamesAndValues)
  {
    list != [] && Paired(list) && ComponentsOk(list)
  }

  predicate Canonical(b: Builder, host: HostFn)
  {
    && (b.scheme.Some? ==> b.scheme.value == "http" || b.scheme.value == "https")
    && Stable(UserMode(true), b.username)
    && Stable(UserMode(true), b.password)
    && (b.host.Some? ==> HostShape(host, b.host.value))
    && (b.port == -1 || 0 < b.port <= 65535)
    && SegmentsOk(b.segments)
    && (b.query.Some? ==> QueryOk(b.query.value))
    && (b.fragment.Some? ==> Stable(FragmentMode(true), b.fragment.value))
  }

  // ---------------------------------------------------------------- encode sets

  lemma PlainSets()
    ensures PlainSet(USERNAME_ENCODE_SET)
    ensures PlainSet(PATH_SEGMENT_ENCODE_SET)
    ensures PlainSet(QUERY_ENCODE_SET)
  {
  }

  const SEPARATOR_MODE := Mode("&=", true, false, false, false)

  lemma WeakerModes()
    ensures forall a :: Weaker(UserMode(true), UserMode(a)) && Weaker(PathMode(true), PathMode(a))
                     && Weaker(QueryMode(true), QueryMode(a)) && Weaker(FragmentMode(true), FragmentMode(a))
  {
    PlainSets();
  }

  lemma WeakerComponents()
    ensures Weaker(QueryMode(true), COMPONENT_MODE) && Weaker(SEPARATOR_MODE, COMPONENT_MODE)
    ensures Weaker(QueryMode(true), REENCODE_MODE) && Weaker(SEPARATOR_MODE, REENCODE_MODE)
  {
  }

  // ---------------------------------------------------------------- paths

  lemma EmptySegmentOk()
    ensures SegmentOk("")
  {
  }

  lemma PopOk(segs: seq<string>)
    requires SegmentsOk(segs)
    ensures SegmentsOk(Pop(segs))
  {
  }

  lemma PushOk(segs: seq<string>, text: string, trailingSlash: bool, alreadyEncoded: bool)
    requires SegmentsOk(segs)
    ensures SegmentsOk(Push(segs, text, trailingSlash, alreadyEncoded))
  {
    hide Canon, IsDot, IsDotDot, Stable, Pop;
    EmptySegmentOk();
    PopOk(segs);
    WeakerModes();
    CanonOutputStable(PathMode(alreadyEncoded), text, PathMode(true));
  }

  lemma {:induction false} PushAllOk(segs: seq<string>, path: string)
    requires SegmentsOk(segs)
    ensures SegmentsOk(PushAll(segs, path))
    decreases |path|
  {
    hide SegmentOk, Push, FirstOf;
    if path != "" {
      var k := FirstOf(path, "/\\");
      PushOk(segs, path[..k], k < |path|, true);
      if k < |path| {
        PushAllOk(Push(segs, path[..k], true, true), path[k + 1..]);
      }
    }
  }

  lemma ResolvePathOk(segs: seq<string>, path: string)
    requires SegmentsOk(segs)
    ensures SegmentsOk(ResolvePath(segs, path))
  {
    hide PushAll, SegmentOk;
    EmptySegmentOk();
    if path != "" {
      if path[0] in "/\\" {
        PushAllOk([""], path[1..]);
      } else {
        PushAllOk(SetLast(segs, ""), path);
      }
    }
  }

  lemma {:induction false} AddSegmentsOk(segs: seq<string>, text: string, alreadyEncoded: bool)
    requires SegmentsOk(segs)
    ensures SegmentsOk(AddSegments(segs, text, alreadyEncoded))
    decreases |text|
  {
    hide SegmentOk, Push, FirstOf;
    var k := FirstOf(text, "/\\");
    PushOk(segs, text[..k], k < |text|, alreadyEncoded);
    if k < |text| {
      AddSegmentsOk(Push(segs, text[..k], true, alreadyEncoded), text[k + 1..], alreadyEncoded);
    }
  }

  // ---------------------------------------------------------------- queries

  lemma {:induction false} SplitStable(m: Mode, q: string)
    requires Stable(m, q)
    ensures forall i :: 0 <= i < |Split(q)| && Split(q)[i].Some? ==> Stable(m, Split(q)[i].value)
    decreases |q|
  {
    hide FirstOf, Split, SplitPair, Stable;
    var a := FirstOf(q, "&");
    SplitCons(q, a);
    StableSlice(m, q, 0, a);
    assert q[0..a] == q[..a];
    SplitPairStable(m, q[..a]);
    if a < |q| {
      StableSlice(m, q, a + 1, |q|);
      assert q[a + 1..|q|] == q[a + 1..];
      SplitStable(m, q[a + 1..]);
    }
  }

  lemma StableSlice(m: Mode, s: string, i: nat, j: nat)
    requires Stable(m, s) && i <= j <= |s|
    ensures Stable(m, s[i..j])
  {
  }

  lemma SplitPairStable(m: Mode, text: string)
    requires Stable(m, text)
    ensures forall i :: 0 <= i < 2 && SplitPair(text)[i].Some? ==> Stable(m, SplitPair(text)[i].value)
  {
    hide FirstOf, Stable;
    var e := FirstOf(text, "=");
    StableSlice(m, text, 0, e);
    assert text[0..e] == text[..e];
    if e < |text| {
      StableSlice(m, text, e + 1, |text|);
      assert text[e + 1..|text|] == text[e + 1..];
    }
  }

  lemma SplitOk(q: string)
    requires Stable(QueryMode(true), q)
    ensures QueryOk(Split(q))
  {
    hide Split, Stable, Free;
    SplitStable(QueryMode(true), q);
    SplitSplitsBack(q);
  }

  lemma SeparatorsFree(c: string)
    requires Stable(SEPARATOR_MODE, c)
    ensures Free(c, "&=") && Free(c, "&")
  {
  }

  lemma ComponentCanonOk(m: Mode, c: string)
    requires m == COMPONENT_MODE || m == REENCODE_MODE
    ensures forall isName :: ComponentOk(Some(Canon(m, c)), isName)
  {
    hide Canon, Free, Stable;
    WeakerComponents();
    CanonOutputStable(m, c, QueryMode(true));
    CanonOutputStable(m, c, SEPARATOR_MODE);
    SeparatorsFree(Canon(m, c));
  }

  lemma AddParameterOk(query: Option<NamesAndValues>, m: Mode, name: string, value: Option<string>)
    requires m == COMPONENT_MODE || m == REENCODE_MODE
    requires query.Some? ==> QueryOk(query.value)
    ensures QueryOk(AddParameter(query, m, name, value).value)
  {
    hide Canon, Free, Stable;
    ComponentCanonOk(m, name);
    if value.Some? {
      ComponentCanonOk(m, value.value);
    }
  }

  lemma PrependPairOk(pair: NamesAndValues, list: NamesAndValues)
    requires |pair| == 2 && Paired(pair) && ComponentsOk(pair) && Paired(list) && ComponentsOk(list)
    ensures Paired(pair + list) && ComponentsOk(pair + list)
  {
  }

  lemma SplitPairOk(list: NamesAndValues)
    requires Paired(list) && ComponentsOk(list) && list != []
    ensures |list| >= 2 && Paired(list[..2]) && ComponentsOk(list[..2])
    ensures Rest(list) == list[2..] && ComponentsOk(Rest(list))
  {
  }

  lemma {:induction false} WithoutNameOk(list: NamesAndValues, name: string)
    requires Paired(list) && ComponentsOk(list)
    ensures Paired(WithoutName(list, name)) && ComponentsOk(WithoutName(list, name))
  {
    if list != [] {
      SplitPairOk(list);
      hide Paired, ComponentsOk;
      WithoutNameOk(Rest(list), name);
      PrependPairOk(list[..2], WithoutName(Rest(list), name));
      assert [] + WithoutName(Rest(list), name) == WithoutName(Rest(list), name);
    }
  }

  lemma RemoveParametersOk(query: Option<NamesAndValues>, name: string)
    requires query.Some? ==> QueryOk(query.value)
    ensures var r := RemoveParameters(query, name); r.Some? ==> QueryOk(r.value)
  {
    hide ComponentsOk;
    if query.Some? {
      WithoutNameOk(query.value, name);
    }
  }

  // ---------------------------------------------------------------- reencodeForUri

  /** A further pass never brings back a character the first one escaped. */
  lemma {:induction false} CanonPreservesStable(n: Mode, m: Mode, s: string)
    requires PlainSet(n.encodeSet) && Stable(n, s)
    ensures Stable(n, Canon(m, s))
  {
    hide EncodeChar, PlainSet, MustEscape;
    if s != "" {
      CanonPreservesStable(n, m, s[1..]);
      EscapeBytesStable(n, EncodeChar(s[0]));
      PlusEscape();
      EscapeBytesStable(n, EncodeChar('+'));
      assert StableChar(n, s[0]);
      StableConcat(n, CanonChar(m, s), Canon(m, s[1..]));
    }
  }

  /** An escape whose last digit is not an e. */
  predicate OtherEscape(s: string, i: int)
  {
    0 <= i < |s| - 2 && s[i] == '%' && s[i + 2] != 'e' && s[i + 2] != 'E'
  }

  lemma {:induction false} ReencodedOrSame(s: string)
    requires Stable(PathMode(true), s)
    ensures Canon(PATH_URI_MODE, s) == s || exists i :: OtherEscape(Canon(PATH_URI_MODE, s), i)
  {
    hide EncodeChar, StableChar, MustEscape, EqualsIgnoreCase;
    if s != "" {
      var head, t, r := CanonChar(PATH_URI_MODE, s), Canon(PATH_URI_MODE, s[1..]), Canon(PATH_URI_MODE, s);
      ReencodedOrSame(s[1..]);
      ReencodedChar(s);
      if head != [s[0]] {
        assert OtherEscape(r, 0);
      } else if t != s[1..] {
        var i :| OtherEscape(t, i);
        assert OtherEscape(r, i + 1);
      }
    }
  }

  lemma ReencodedChar(s: string)
    requires s != "" && StableChar(PathMode(true), s[0])
    ensures var r := CanonChar(PATH_URI_MODE, s);
            r == [s[0]] || (|r| == 3 && r[0] == '%' && r[2] != 'e' && r[2] != 'E')
  {
    if MustEscape(PATH_URI_MODE, s) {
      var c := s[0];
      assert c == '[' || c == ']' || c == '%';
      assert EncodeChar(c)[1..] == [];
    }
  }

  lemma DotsHoldOnlyDotEscapes(s: string, i: int)
    requires IsDot(s) || IsDotDot(s)
    ensures !OtherEscape(s, i)
  {
  }

  lemma ReencodedSegmentOk(s: string)
    requires SegmentOk(s)
    ensures SegmentOk(Canon(PATH_URI_MODE, s))
  {
    hide Canon, IsDot, IsDotDot, Stable, OtherEscape;
    PlainSets();
    CanonPreservesStable(PathMode(true), PATH_URI_MODE, s);
    ReencodedOrSame(s);
    var r := Canon(PATH_URI_MODE, s);
    if r != s && (IsDot(r) || IsDotDot(r)) {
      var i :| OtherEscape(r, i);
      DotsHoldOnlyDotEscapes(r, i);
    }
  }

  lemma ReencodedComponentOk(c: string, isName: bool)
    requires ComponentOk(Some(c), isName)
    ensures ComponentOk(Some(Canon(QUERY_URI_MODE, c)), isName)
  {
    PlainSets();
    CanonPreservesStable(QueryMode(true), QUERY_URI_MODE, c);
    ReencodedFree(c, if isName then "&=" else "&");
  }

  lemma {:induction false} ReencodedFree(c: string, separators: string)
    requires separators == "&" || separators == "&="
    requires Free(c, separators)
    ensures Free(Canon(QUERY_URI_MODE, c), separators)
  {
    hide EncodeChar, MustEscape;
    if c != "" {
      ReencodedFree(c[1..], separators);
      EscapeBytesFree(EncodeChar(c[0]), separators);
    }
  }

  lemma {:induction false} EscapeBytesFree(bytes: seq<Byte>, separators: string)
    requires separators == "&" || separators == "&="
    ensures Free(EscapeBytes(bytes), separators)
  {
    if bytes != [] {
      EscapeBytesFree(bytes[1..], separators);
      assert IsHex(HexDigit((bytes[0] / 16) as int)) && IsHex(HexDigit((bytes[0] % 16) as int));
    }
  }

  lemma ReencodeOk(b: Builder, host: HostFn)
    requires Canonical(b, host)
    ensures Canonical(Apply(b, ReencodeForUri, host).value, host)
  {
    hide Canon, SegmentOk, ComponentOk, Stable;
    var r := Apply(b, ReencodeForUri, host).value;
    forall i | 0 <= i < |r.segments|
      ensures SegmentOk(r.segments[i])
    {
      ReencodedSegmentOk(b.segments[i]);
    }
    if b.query.Some? {
      var list := r.query.value;
      forall i | 0 <= i < |list|
        ensures ComponentOk(list[i], i % 2 == 0)
      {
        assert ComponentOk(b.query.value[i], i % 2 == 0);
        if list[i].Some? {
          ReencodedComponentOk(b.query.value[i].value, i % 2 == 0);
        } else {
          assert b.query.value[i] == None;
        }
      }
    }
    if b.fragment.Some? {
      CanonPreservesStable(FragmentMode(true), FRAGMENT_URI_MODE, b.fragment.value);
    }
  }

  // ---------------------------------------------------------------- every edit

  /** Every call that returns normally keeps the state canonical. */
  lemma ApplyKeepsCanonical(b: Builder, e: Edit, host: HostFn)
    requires Canonical(b, host) && HostLaws(host)
    ensures var r := Apply(b, e, host); r.Ok? ==> Canonical(r.value, host)
  {
    hide Canon, PercentDecoded, EqualsIgnoreCase, Push, AddSegments, ResolvePath, WithSegment, QueryOf, AddParameter,
      RemoveParameters, CanonAll, Stable, SegmentOk, ComponentsOk, HostShape;
    match e
    case Scheme(_) =>
    case Host(_) =>
    case Port(_) =>
    case ReencodeForUri => ReencodeOk(b, host);
    case _ =>
      ApplyTextOk(b, e, host);
      ApplyPathOk(b, e, host);
      ApplyQueryOk(b, e, host);
  }

  predicate TextEdit(e: Edit)
  {
    e.Username? || e.EncodedUsername? || e.Password? || e.EncodedPassword? || e.Fragment? || e.EncodedFragment?
  }

  lemma ApplyTextOk(b: Builder, e: Edit, host: HostFn)
    requires Canonical(b, host)
    ensures TextEdit(e) ==> var r := Apply(b, e, host); r.Ok? && Canonical(r.value, host)
  {
    hide Canon, Stable, SegmentOk, ComponentsOk, HostShape;
    WeakerModes();
    if TextEdit(e) {
      match e
      case Username(t) => CanonOutputStable(UserMode(false), t, UserMode(true));
      case EncodedUsername(t) => CanonOutputStable(UserMode(true), t, UserMode(true));
      case Password(t) => CanonOutputStable(UserMode(false), t, UserMode(true));
      case EncodedPassword(t) => CanonOutputStable(UserMode(true), t, UserMode(true));
      case Fragment(f) => if f.Some? { CanonOutputStable(FragmentMode(false), f.value, FragmentMode(true)); }
      case EncodedFragment(f) => if f.Some? { CanonOutputStable(FragmentMode(true), f.value, FragmentMode(true)); }
    }
  }

  predicate PathEdit(e: Edit)
  {
    || e.AddPathSegment? || e.AddEncodedPathSegment? || e.AddPathSegments? || e.AddEncodedPathSegments?
    || e.SetPathSegment? || e.SetEncodedPathSegment? || e.RemovePathSegment? || e.EncodedPath?
  }

  lemma SetSegmentOk(segs: seq<string>, index: int, text: string, alreadyEncoded: bool)
    requires SegmentsOk(segs) && 0 <= index < |segs|
    ensures var s := Canon(PathMode(alreadyEncoded), text);
            !IsDot(s) && !IsDotDot(s) ==> SegmentsOk(segs[index := s])
  {
    hide Canon, Stable, IsDot, IsDotDot;
    WeakerModes();
    CanonOutputStable(PathMode(alreadyEncoded), text, PathMode(true));
  }

  lemma ApplyPathOk(b: Builder, e: Edit, host: HostFn)
    requires Canonical(b, host)
    ensures PathEdit(e) ==> var r := Apply(b, e, host); r.Ok? ==> Canonical(r.value, host)
  {
    hide Canon, Stable, SegmentOk, ComponentsOk, HostShape, Push, AddSegments, ResolvePath, IsDot, IsDotDot;
    EmptySegmentOk();
    if PathEdit(e) && Apply(b, e, host).Ok? {
      match e
      case AddPathSegment(t) => PushOk(b.segments, t, false, false);
      case AddEncodedPathSegment(t) => PushOk(b.segments, t, false, true);
      case AddPathSegments(t) => AddSegmentsOk(b.segments, t, false);
      case AddEncodedPathSegments(t) => AddSegmentsOk(b.segments, t, true);
      case SetPathSegment(i, t) => SetSegmentOk(b.segments, i, t, false);
      case SetEncodedPathSegment(i, t) => SetSegmentOk(b.segments, i, t, true);
      case RemovePathSegment(i) =>
      case EncodedPath(t) => ResolvePathOk(b.segments, t);
    }
  }

  predicate QueryEdit(e: Edit)
  {
    || e.Query? || e.EncodedQuery? || e.AddQueryParameter? || e.AddEncodedQueryParameter? || e.SetQueryParameter?
    || e.SetEncodedQueryParameter? || e.RemoveAllQueryParameters? || e.RemoveAllEncodedQueryParameters?
  }

  lemma QueryOfOk(alreadyEncoded: bool, q: Option<string>)
    ensures var r := QueryOf(QueryMode(alreadyEncoded), q); r.Some? ==> QueryOk(r.value)
  {
    hide Canon, Stable, Split;
    WeakerModes();
    if q.Some? {
      CanonOutputStable(QueryMode(alreadyEncoded), q.value, QueryMode(true));
      SplitOk(Canon(QueryMode(alreadyEncoded), q.value));
    }
  }

  lemma ApplyQueryOk(b: Builder, e: Edit, host: HostFn)
    requires Canonical(b, host)
    ensures QueryEdit(e) ==> var r := Apply(b, e, host); r.Ok? && Canonical(r.value, host)
  {
    hide Canon, Stable, SegmentOk, ComponentsOk, HostShape, RemoveParameters, AddParameter, QueryOf;
    if QueryEdit(e) {
      match e
      case Query(q) => QueryOfOk(false, q);
      case EncodedQuery(q) => QueryOfOk(true, q);
      case AddQueryParameter(n, v) => AddParameterOk(b.query, COMPONENT_MODE, n, v);
      case AddEncodedQueryParameter(n, v) => AddParameterOk(b.query, REENCODE_MODE, n, v);
      case SetQueryParameter(n, v) =>
        RemoveParametersOk(b.query, Canon(COMPONENT_MODE, n));
        AddParameterOk(RemoveParameters(b.query, Canon(COMPONENT_MODE, n)), COMPONENT_MODE, n, v);
      case SetEncodedQueryParameter(n, v) =>
        RemoveParametersOk(b.query, Canon(REENCODE_MODE, n));
        AddParameterOk(RemoveParameters(b.query, Canon(REENCODE_MODE, n)), REENCODE_MODE, n, v);
      case RemoveAllQueryParameters(n) => RemoveParametersOk(b.query, Canon(COMPONENT_MODE, n));
      case RemoveAllEncodedQueryParameters(n) => RemoveParametersOk(b.query, Canon(REENCODE_MODE, n));
    }
  }

  lemma FreshCanonical(host: HostFn)
    ensures Canonical(FRESH, host)
  {
  }
}
