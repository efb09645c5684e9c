/** A built `HttpUrl` and the accessors that cut its encoded parts out of the flat string. */
module HttpUrls {
  import opened Text
  import opened PercentCoding
  import opened QueryString
  import opened UrlBuilder
  import opened UrlCanonical
  import opened UrlShapes

  datatype HttpUrl = HttpUrl(scheme: string, username: string, password: string, host: string, port: int,
                             pathSegments: seq<string>, query: Option<NamesAndValues>,
                             fragment: Option<string>, url: string)

  function DecodeOption(s: Option<string>, plusIsSpace: bool): (r: Option<string>)
    ensures r.Some? == s.Some?
  {
    if s.Some? then Some(PercentDecoded(s.value, plusIsSpace)) else None
  }

  function DecodeList(list: NamesAndValues, plusIsSpace: bool): (r: NamesAndValues)
    ensures |r| == |list| && forall i :: 0 <= i < |r| ==> r[i] == DecodeOption(list[i], plusIsSpace)
  {
    seq(|list|, i requires 0 <= i < |list| => DecodeOption(list[i], plusIsSpace))
  }

  /** `Builder.build`: decode every component and keep the printed form. */
  function Build(b: Builder): (r: Result<HttpUrl, Failure>)
    requires WellShaped(b)
  {
    if b.scheme.None? then Err(NoScheme)
    else if b.host.None? then Err(NoHost)
    else Ok(HttpUrl(
      b.scheme.value, PercentDecoded(b.username, false), PercentDecoded(b.password, false),
      b.host.value, EffectivePort(b),
      seq(|b.segments|, i requires 0 <= i < |b.segments| => PercentDecoded(b.segments[i], false)),
      if b.query.Some? then Some(DecodeList(b.query.value, true)) else None,
      DecodeOption(b.fragment, false), Print(b)))
  }

  // ---------------------------------------------------------------- accessors

  /** `String.indexOf(c, from)`. */
  function IndexOf(s: string, c: char, from: nat): (r: int)
    requires from <= |s|
    ensures r == -1 || (from <= r < |s| && s[r] == c && forall i :: from <= i < r ==> s[i] != c)
  {
    var k := FirstOf(s[from..], [c]);
    if from + k == |s| then -1 else from + k
  }

  /** The prefix "scheme://" that every built URL starts with. */
  predicate HasScheme(u: HttpUrl) { |u.scheme| + 3 <= |u.url| }

  function UsernamePart(u: HttpUrl): (r: string)
    requires HasScheme(u)
  {
    var start := |u.scheme| + 3;
    if u.username == "" then "" else u.url[start..start + FirstOf(u.url[start..], ":@")]
  }

  function PasswordStart(u: HttpUrl): int
    requires HasScheme(u)
  {
    IndexOf(u.url, ':', |u.scheme| + 3) + 1
  }

  /** No `substring` call of the accessors is out of range. */
  predicate InRange(u: HttpUrl)
  {
    && HasScheme(u)
    && (u.password != "" ==> 0 <= PasswordStart(u) <= IndexOf(u.url, '@', 0))
    && IndexOf(u.url, '/', |u.scheme| + 3) != -1
  }

  function PasswordPart(u: HttpUrl): (r: string)
    requires InRange(u)
  {
    if u.password == "" then "" else u.url[PasswordStart(u)..IndexOf(u.url, '@', 0)]
  }

  function PathPart(u: HttpUrl): (r: string)
    requires InRange(u)
  {
    var start := IndexOf(u.url, '/', |u.scheme| + 3);
    u.url[start..start + FirstOf(u.url[start..], "?#")]
  }

  /** The segments of a path whose first character is the '/' in front of the first one. */
  function SegmentsOf(path: string): (r: seq<string>)
  {
    if path == "" then []
    else
      var k := FirstOf(path[1..], "/");
      [path[1..][..k]] + SegmentsOf(path[1..][k..])
  }

  function SegmentParts(u: HttpUrl): (r: seq<string>)
    requires InRange(u)
  {
    SegmentsOf(PathPart(u))
  }

  function QueryPart(u: HttpUrl): (r: Option<string>)
  {
    if u.query.None? then None
    else
      var start := IndexOf(u.url, '?', 0) + 1;
      Some(u.url[start..start + FirstOf(u.url[start..], "#")])
  }

  function FragmentPart(u: HttpUrl): (r: Option<string>)
  {
    if u.fragment.None? then None else Some(u.url[IndexOf(u.url, '#', 0) + 1..])
  }

  /** The loop of `encodedPathSegments`. */
  method PathSegmentsLoop(u: HttpUrl) returns (result: seq<string>)
    requires InRange(u)
    ensures result == SegmentParts(u)
  {
    hide SegmentsOf, FirstOf, IndexOf;
    var pathStart := IndexOf(u.url, '/', |u.scheme| + 3);
    var pathEnd := DelimiterOffset(u.url, pathStart, |u.url|, "?#");
    assert u.url[pathStart..|u.url|] == u.url[pathStart..];
    result := [];
    var i := pathStart;
    ghost var rest := SegmentsOf(u.url[i..pathEnd]);
    while i < pathEnd
      invariant pathStart <= i <= pathEnd
      invariant rest == SegmentsOf(u.url[i..pathEnd])
      invariant result + rest == SegmentsOf(u.url[pathStart..pathEnd])
      decreases pathEnd - i
    {
      SegmentsStep(u.url, i, pathEnd);
      i := i + 1;
      var segmentEnd := DelimiterOffset(u.url, i, pathEnd, "/");
      result := result + [u.url[i..segmentEnd]];
      i := segmentEnd;
      rest := SegmentsOf(u.url[i..pathEnd]);
    }
    SegmentsEnd(u.url, pathEnd);
  }

  lemma SegmentsStep(s: string, i: nat, end: nat)
    requires i < end <= |s|
    ensures var segmentEnd := i + 1 + FirstOf(s[i + 1..end], "/");
            segmentEnd <= end
            && SegmentsOf(s[i..end]) == [s[i + 1..segmentEnd]] + SegmentsOf(s[segmentEnd..end])
  {
    var path, k := s[i..end], FirstOf(s[i + 1..end], "/");
    assert path[1..] == s[i + 1..end];
    assert path[1..][..k] == s[i + 1..i + 1 + k] && path[1..][k..] == s[i + 1 + k..end];
  }

  lemma SegmentsEnd(s: string, end: nat)
    requires end <= |s|
    ensures SegmentsOf(s[end..end]) == []
  {
  }

  /** `newBuilder()`. */
  function NewBuilder(u: HttpUrl): (b: Builder)
    requires InRange(u)
  {
    Builder(Some(u.scheme), UsernamePart(u), PasswordPart(u), Some(u.host),
            if u.port != DefaultPort(u.scheme) then u.port else -1,
            SegmentParts(u), QueryOf(QueryMode(true), QueryPart(u)), FragmentPart(u))
  }

  // ---------------------------------------------------------------- accessors undo the printer

  /** A search starting at the end of a prefix. */
  lemma IndexOfAfter(a: string, free: string, rest: string, c: char)
    requires Free(free, [c]) && rest != "" && rest[0] == c
    ensures var text := a + (free + rest);
            IndexOf(text, c, |a|) == |a| + |free| && text[|a| + |free|..] == rest
            && (rest[1..] == text[|a| + |free| + 1..])
  {
    hide FirstOf;
    var text := a + (free + rest);
    assert text[|a|..] == free + rest;
    FirstOfConcat(free, rest, [c]);
    assert FirstOf(rest, [c]) == 0;
  }

  /** The printed user name and what follows it. */
  lemma UserInfoSplit(b: Builder, x: string)
    requires b.username != "" || b.password != ""
    ensures UserInfo(b) + x == b.username + ((if b.password == "" then "" else ":" + b.password) + ("@" + x))
  {
  }

  lemma UsernameCut(b: Builder, host: HostFn)
    requires Buildable(b, host)
    ensures UsernamePart(Build(b).value) == b.username
  {
    hide UserInfo, HostPort, AfterAuthority, Stable, SegmentOk, ComponentsOk, PercentDecoded, DecodeList,
      Print, FirstOf;
    SchemeFree(b, host);
    hide SchemeText;
    if b.username != "" {
      UserFree(b.username);
      FreeFewer(b.username, ":@", ":@/\\?#");
      var x := HostPort(b) + AfterAuthority(b);
      UserInfoSplit(b, x);
      assert Print(b) == SchemeText(b) + AfterScheme(b);
      CutOut(SchemeText(b), b.username, (if b.password == "" then "" else ":" + b.password) + ("@" + x), ":@");
    }
  }

  lemma PasswordCut(b: Builder, host: HostFn)
    requires Buildable(b, host) && b.password != ""
    ensures var u := Build(b).value;
            HasScheme(u) && 0 <= PasswordStart(u) <= IndexOf(u.url, '@', 0) <= |u.url|
            && u.url[PasswordStart(u)..IndexOf(u.url, '@', 0)] == b.password
  {
    hide UserInfo, HostPort, AfterAuthority, Stable, SegmentOk, ComponentsOk, PercentDecoded, DecodeList,
      Print, FirstOf, IndexOf;
    SchemeFree(b, host);
    hide SchemeText;
    UserFree(b.username);
    UserFree(b.password);
    var x := HostPort(b) + AfterAuthority(b);
    UserInfoSplit(b, x);
    assert Print(b) == SchemeText(b) + AfterScheme(b);
    PasswordPositions(SchemeText(b), b.username, b.password, "@" + x);
  }

  lemma PasswordPositions(s: string, u: string, p: string, rest: string)
    requires Free(s, "@?#\\") && Free(u, ":@/\\?#") && Free(p, ":@/\\?#")
    requires rest != "" && rest[0] == '@'
    ensures var text := s + (u + ((":" + p) + rest));
            && IndexOf(text, ':', |s|) + 1 == |s| + |u| + 1
            && IndexOf(text, '@', 0) == |s| + |u| + 1 + |p|
            && text[|s| + |u| + 1..|s| + |u| + 1 + |p|] == p
  {
    hide FirstOf, IndexOf;
    var c := ":" + p;
    FreeFewer(u, ":", ":@/\\?#");
    IndexOfAfter(s, u, c + rest, ':');
    FreeFewer(s, "@", "@?#\\");
    FreeFewer(u, "@", ":@/\\?#");
    FreeFewer(p, "@", ":@/\\?#");
    FreeConcat(":", p, "@");
    FreeConcat(u, c, "@");
    FreeConcat(s, u + c, "@");
    Assoc(u, c, rest);
    Assoc(s, u + c, rest);
    var front := s + (u + c);
    IndexOfAfter("", front, rest, '@');
    assert "" + (front + rest) == front + rest;
    assert front[|s| + |u| + 1..] == p;
    assert (front + rest)[|s| + |u| + 1..|front|] == front[|s| + |u| + 1..];
  }

  lemma {:induction false} SegmentsOfPathText(segs: seq<string>)
    requires forall i :: 0 <= i < |segs| ==> SegmentOk(segs[i])
    ensures SegmentsOf(PathText(segs)) == segs
  {
    hide SegmentOk, PathText, FirstOf, SegmentsOf;
    if segs == [] {
      PathTextEmpty();
      SegmentsEnd("", 0);
    } else {
      var s, rest := segs[0], PathText(segs[1..]);
      PathTextUnfold(segs);
      PathTextEmpty();
      SegmentFree(s);
      FreeFewer(s, "/", "/\\?#");
      PathFree(segs[1..]);
      SegmentsCons(s, rest);
      SegmentsOfPathText(segs[1..]);
    }
  }

  lemma SegmentsCons(s: string, rest: string)
    requires Free(s, "/") && (rest != "" ==> rest[0] == '/')
    ensures SegmentsOf("/" + s + rest) == [s] + SegmentsOf(rest)
  {
    hide FirstOf;
    var path := "/" + s + rest;
    assert path[1..] == s + rest;
    CutOut("", s, rest, "/");
    assert "" + (s + rest) == s + rest && (s + rest)[0..] == s + rest;
    assert path[1..][..|s|] == s && path[1..][|s|..] == rest;
  }

  lemma PathCut(b: Builder, host: HostFn)
    requires Buildable(b, host)
    ensures var u := Build(b).value;
            && HasScheme(u)
            && var start := IndexOf(u.url, '/', |u.scheme| + 3);
               start >= 0 && u.url[start..] == AfterAuthority(b)
  {
    hide UserInfo, HostPort, PathText, AfterAuthority, SchemeText, Stable, SegmentOk, ComponentsOk, PercentDecoded,
      DecodeList,
      IndexOf, FirstOf, Print;
    SchemeFree(b, host);
    UserInfoFree(b, host);
    HostPortFree(b, host);
    AfterAuthorityStart(b, host);
    FreeFewer(UserInfo(b), "/", "/\\?#");
    FreeFewer(HostPort(b), "/", "@/\\?#");
    FreeConcat(UserInfo(b), HostPort(b), "/");
    Assoc(UserInfo(b), HostPort(b), AfterAuthority(b));
    assert Print(b) == SchemeText(b) + AfterScheme(b);
    IndexOfAfter(SchemeText(b), UserInfo(b) + HostPort(b), AfterAuthority(b), '/');
  }

  lemma AfterAuthorityStart(b: Builder, host: HostFn)
    requires Buildable(b, host)
    ensures AfterAuthority(b) != "" && AfterAuthority(b)[0] == '/'
  {
  }

  lemma PathPartCut(b: Builder, host: HostFn)
    requires Buildable(b, host) && InRange(Build(b).value)
    ensures PathPart(Build(b).value) == PathText(b.segments) && SegmentParts(Build(b).value) == b.segments
  {
    hide PathText, Stable, SegmentOk, ComponentsOk, PercentDecoded, DecodeList, IndexOf, FirstOf, Print, InRange,
      SegmentsOf, EndText;
    PathCut(b, host);
    PathBeforeTail(b, host);
    SegmentsOfPathText(b.segments);
    var u, p := Build(b).value, PathText(b.segments);
    var start := IndexOf(u.url, '/', |u.scheme| + 3);
    assert AfterAuthority(b)[..|p|] == p;
    assert u.url[start..][..|p|] == u.url[start..start + |p|];
  }

  lemma FrontFree(b: Builder, host: HostFn)
    requires Buildable(b, host)
    ensures Free(SchemeText(b) + UserInfo(b) + HostPort(b) + PathText(b.segments), "?#")
  {
    hide UserInfo, HostPort, PathText, SegmentOk, SchemeText;
    SchemeFree(b, host);
    UserInfoFree(b, host);
    HostPortFree(b, host);
    PathFree(b.segments);
    FreeFewer(SchemeText(b), "?#", "@?#\\");
    FreeFewer(UserInfo(b), "?#", "/\\?#");
    FreeFewer(HostPort(b), "?#", "@/\\?#");
    FreeFewer(PathText(b.segments), "?#", "?#\\");
    FreeConcat(SchemeText(b), UserInfo(b), "?#");
    FreeConcat(SchemeText(b) + UserInfo(b), HostPort(b), "?#");
    FreeConcat(SchemeText(b) + UserInfo(b) + HostPort(b), PathText(b.segments), "?#");
  }

  lemma FrontSplit(b: Builder)
    requires WellShaped(b)
    ensures Print(b) == (SchemeText(b) + UserInfo(b) + HostPort(b) + PathText(b.segments)) + EndText(b)
  {
    hide UserInfo, HostPort, PathText, SchemeText, QueryText, FragmentText;
    var s, u, h, p, t := SchemeText(b), UserInfo(b), HostPort(b), PathText(b.segments), EndText(b);
    Assoc(s + u + h, p, t);
    Assoc(s + u, h, p + t);
    Assoc(s, u, h + (p + t));
  }

  lemma BuiltParts(b: Builder)
    requires WellShaped(b) && b.scheme.Some? && b.host.Some?
    ensures Build(b).Ok? && Build(b).value.url == Print(b)
    ensures Build(b).value.query.Some? <==> b.query.Some?
    ensures Build(b).value.fragment.Some? <==> b.fragment.Some?
  {
    hide Print, PercentDecoded, DecodeList;
  }

  lemma QueryCut(b: Builder, host: HostFn)
    requires Buildable(b, host)
    ensures QueryPart(Build(b).value) == if b.query.Some? then Some(Join(b.query.value)) else None
  {
    hide UserInfo, HostPort, PathText, SchemeText, Stable, SegmentOk, ComponentsOk, PercentDecoded, DecodeList, Join,
      Print, FirstOf, IndexOf, Free, Build;
    BuiltParts(b);
    if b.query.Some? {
      FrontFree(b, host);
      FrontSplit(b);
      JoinFree(b.query.value);
      var front := SchemeText(b) + UserInfo(b) + HostPort(b) + PathText(b.segments);
      var q, f := Join(b.query.value), FragmentText(b);
      Assoc("?", q, f);
      hide EndText;
      QuerySlices(front, q, f);
      assert Print(b) == front + ("?" + (q + f));
    }
  }

  lemma QuerySlices(front: string, q: string, f: string)
    requires Free(front, "?#") && Free(q, "#") && (f != "" ==> f[0] == '#')
    ensures var text := front + ("?" + (q + f));
            && IndexOf(text, '?', 0) == |front|
            && FirstOf(text[|front| + 1..], "#") == |q|
            && text[|front| + 1..|front| + 1 + |q|] == q
  {
    hide FirstOf, IndexOf;
    FreeFewer(front, "?", "?#");
    IndexOfAfter("", front, "?" + (q + f), '?');
    assert "" + (front + ("?" + (q + f))) == front + ("?" + (q + f));
    Assoc(front, "?", q + f);
    CutOut(front + "?", q, f, "#");
  }

  lemma FragmentCut(b: Builder, host: HostFn)
    requires Buildable(b, host)
    ensures FragmentPart(Build(b).value) == b.fragment
  {
    hide UserInfo, HostPort, PathText, SchemeText, Stable, SegmentOk, ComponentsOk, PercentDecoded, DecodeList, Join,
      Print, FirstOf, IndexOf, Free, Build;
    BuiltParts(b);
    if b.fragment.Some? {
      FrontFree(b, host);
      FrontSplit(b);
      var front := SchemeText(b) + UserInfo(b) + HostPort(b) + PathText(b.segments);
      assert EndText(b) == QueryText(b) + ("#" + b.fragment.value);
      QueryTextFree(b);
      hide EndText, QueryText, FragmentPart;
      FoundFragment(Build(b).value, front, QueryText(b), b.fragment.value);
    }
  }

  lemma FoundFragment(u: HttpUrl, front: string, q: string, f: string)
    requires u.fragment.Some? && u.url == front + (q + ("#" + f)) && Free(front, "?#") && Free(q, "#")
    ensures FragmentPart(u) == Some(f)
  {
    hide FirstOf, IndexOf, Free;
    FragmentSlices(front, q, f);
  }

  lemma QueryTextFree(b: Builder)
    requires b.segments != [] && (b.query.Some? ==> QueryOk(b.query.value))
    ensures Free(QueryText(b), "#")
  {
    hide Join, ComponentsOk;
    if b.query.Some? {
      JoinFree(b.query.value);
      FreeConcat("?", Join(b.query.value), "#");
    }
  }

  lemma FragmentSlices(front: string, q: string, f: string)
    requires Free(front, "?#") && Free(q, "#")
    ensures var text := front + (q + ("#" + f));
            IndexOf(text, '#', 0) == |front| + |q| && text[|front| + |q| + 1..] == f
  {
    hide FirstOf, IndexOf;
    FreeFewer(front, "#", "?#");
    FreeConcat(front, q, "#");
    Assoc(front, q, "#" + f);
    IndexOfAfter("", front + q, "#" + f, '#');
    assert "" + ((front + q) + ("#" + f)) == front + (q + ("#" + f));
    assert ("#" + f)[1..] == f;
  }

  /** The accessors cut out of the flat string exactly the components that were printed. */
  lemma AccessorsUndoPrinter(b: Builder, host: HostFn)
    requires Buildable(b, host)
    ensures var u := Build(b).value;
            && InRange(u)
            && UsernamePart(u) == b.username
            && PasswordPart(u) == b.password
            && PathPart(u) == PathText(b.segments)
            && SegmentParts(u) == b.segments
            && QueryPart(u) == (if b.query.Some? then Some(Join(b.query.value)) else None)
            && FragmentPart(u) == b.fragment
  {
    hide UserInfo, HostPort, PathText, SchemeText, Stable, SegmentOk, ComponentsOk, DecodeList, Join, SegmentsOf, Print,
      AfterAuthority, PercentDecoded, UsernamePart, QueryPart, FragmentPart, PathPart, SegmentParts, IndexOf;
    UsernameCut(b, host);
    if b.password != "" {
      PasswordCut(b, host);
    }
    PathCut(b, host);
    hide Build;
    PathPartCut(b, host);
    QueryCut(b, host);
    FragmentCut(b, host);
  }

  /** Leaving out a default port changes neither the effective port nor the printed form. */
  function DropDefaultPort(b: Builder): (r: Builder)
    requires b.scheme.Some?
    ensures EffectivePort(r) == EffectivePort(b) && PortText(r) == PortText(b)
  {
    b.(port := if EffectivePort(b) != DefaultPort(b.scheme.value) then b.port else -1)
  }

  lemma DropDefaultPortBuilds(b: Builder)
    requires WellShaped(b) && b.scheme.Some?
    ensures Build(DropDefaultPort(b)) == Build(b)
  {
    hide PathText, Join, PercentDecoded, DecodeList;
    var r := DropDefaultPort(b);
    hide PortText, EffectivePort;
    assert Print(r) == Print(b);
  }

  /** `newBuilder` recovers the builder, up to a port that is the scheme's default; hence
      `newBuilder().build()` equals the original URL. */
  lemma NewBuilderRebuilds(b: Builder, host: HostFn)
    requires Buildable(b, host)
    ensures var u := Build(b).value;
            && InRange(u)
            && NewBuilder(u) == DropDefaultPort(b)
            && Build(NewBuilder(u)) == Ok(u)
  {
    hide Print, Stable, SegmentOk, ComponentsOk, DecodeList, Join, QueryOf,
      PercentDecoded, UsernamePart, PasswordPart, SegmentParts, QueryPart, FragmentPart, InRange;
    AccessorsUndoPrinter(b, host);
    DropDefaultPortBuilds(b);
    if b.query.Some? {
      QueryReread(b.query.value);
    }
    assert QueryOf(QueryMode(true), None) == None by { NoQuery(); }
  }

  lemma NoQuery()
    ensures QueryOf(QueryMode(true), None) == None
  {
  }
}
