/** `HttpUrl.Builder.parse`, and the laws that tie it to the printer. */
module UrlParser {
  import opened Text
  import opened PercentCoding
  import opened QueryString
  import opened UrlBuilder
  import opened UrlCanonical
  import opened UrlShapes
  import opened HttpUrls

  // ---------------------------------------------------------------- scheme

  predicate IsLetter(c: char) { 'a' <= c <= 'z' || 'A' <= c <= 'Z' }

  predicate IsSchemeChar(c: char) { IsLetter(c) || '0' <= c <= '9' || c == '+' || c == '-' || c == '.' }

  function SchemeScan(s: string, i: nat): (r: int)
    requires i <= |s|
    ensures r == -1 || (i <= r < |s| && s[r] == ':' && forall j :: i <= j < r ==> IsSchemeChar(s[j]))
    decreases |s| - i
  {
    if i == |s| then -1
    else if IsSchemeChar(s[i]) then SchemeScan(s, i + 1)
    else if s[i] == ':' then i
    else -1
  }

  /** `schemeDelimiterOffset`. */
  function SchemeDelimiter(s: string): (r: int)
    ensures r == -1 || 1 <= r < |s|
  {
    if |s| < 2 || !IsLetter(s[0]) then -1 else SchemeScan(s, 1)
  }

  predicate StartsIgnoreCase(s: string, pattern: string)
  {
    |pattern| <= |s| && EqualsIgnoreCase(s[..|pattern|], pattern)
  }

  /** The scheme and the text after it. */
  function ParseScheme(base: Option<HttpUrl>, s: string): (r: Result<(string, string), Failure>)
  {
    if SchemeDelimiter(s) != -1 then
      if StartsIgnoreCase(s, "https:") then Ok(("https", s[6..]))
      else if StartsIgnoreCase(s, "http:") then Ok(("http", s[5..]))
      else Err(BadScheme)
    else if base.Some? then Ok((base.value.scheme, s))
    else Err(NoScheme)
  }

  function SlashCount(s: string): (n: nat)
    ensures n <= |s|
    ensures forall i :: 0 <= i < n ==> s[i] == '/' || s[i] == '\\'
    ensures n < |s| ==> s[n] != '/' && s[n] != '\\'
  {
    if s != "" && (s[0] == '\\' || s[0] == '/') then 1 + SlashCount(s[1..]) else 0
  }

  // ---------------------------------------------------------------- authority

  datatype Authority = Authority(username: string, password: string, host: string, port: int, rest: string)

  /** One step of `portColonOffset`: over a bracketed address, or over one character. */
  function Skip(s: string): (n: nat)
    requires s != ""
    ensures 1 <= n <= |s|
  {
    if s[0] != '[' then 1
    else
      var k := FirstOf(s[1..], "]");
      if k + 1 == |s| then |s| else k + 2
  }

  /** `portColonOffset`: the first ':' outside square brackets. */
  function PortColon(s: string): (r: nat)
    ensures r <= |s|
    ensures r < |s| ==> s[r] == ':'
  {
    if s == "" || s[0] == ':' then 0 else Skip(s) + PortColon(s[Skip(s)..])
  }

  function ParsePort(text: string): (p: int)
    ensures p == -1 || 0 < p <= 65535
  {
    var n := ParseInteger(Canon(PORT_MODE, text));
    if n.Some? && 0 < n.value <= 65535 then n.value else -1
  }

  function ParseHostPort(text: string, scheme: string, host: HostFn): (r: Result<(string, int), Failure>)
  {
    var c := PortColon(text);
    var h := host(PercentDecoded(text[..c], false));
    var explicit := c + 1 < |text|;
    var port := if explicit then ParsePort(text[c + 1..]) else DefaultPort(scheme);
    if explicit && port == -1 then Err(BadPort)
    else if h.None? then Err(BadHost)
    else Ok((h.value, port))
  }

  /** The authority loop: user info up to each '@', then host and port. */
  function ParseAuthority(s: string, username: string, password: string, hasUsername: bool, hasPassword: bool,
                          scheme: string, host: HostFn): (r: Result<Authority, Failure>)
    decreases |s|
  {
    var k := FirstOf(s, "@/\\?#");
    if k < |s| && s[k] == '@' then
      if !hasPassword then
        var c := FirstOf(s[..k], ":");
        var user := Canon(UserMode(true), s[..c]);
        var username' := if hasUsername then username + "%40" + user else user;
        if c < k then
          ParseAuthority(s[k + 1..], username', Canon(UserMode(true), s[c + 1..k]), true, true, scheme, host)
        else
          ParseAuthority(s[k + 1..], username', password, true, false, scheme, host)
      else
        ParseAuthority(s[k + 1..], username, password + "%40" + Canon(UserMode(true), s[..k]),
                       hasUsername, true, scheme, host)
    else
      match ParseHostPort(s[..k], scheme, host)
      case Err(e) => Err(e)
      case Ok((h, p)) => Ok(Authority(username, password, h, p, s[k..]))
  }

  // ---------------------------------------------------------------- path, query and fragment

  function ParseTail(b: Builder, rest: string): (r: Builder)
    requires b.segments != []
  {
    var k := FirstOf(rest, "?#");
    var t := rest[k..];
    var q := FirstOf(t, "#");
    b.(segments := ResolvePath(b.segments, rest[..k]),
       query := if t != "" && t[0] == '?' then QueryOf(QueryMode(true), Some(t[1..q])) else b.query,
       fragment := if q < |t| then Some(Canon(FragmentMode(true), t[q + 1..])) else b.fragment)
  }

  /** What a link inherits from the base URL. */
  function Inherit(base: HttpUrl, rest: string): (b: Builder)
    requires InRange(base)
  {
    Builder(Some(base.scheme), UsernamePart(base), PasswordPart(base), Some(base.host), base.port,
            SegmentParts(base),
            if rest == "" || rest[0] == '#' then QueryOf(QueryMode(true), QueryPart(base)) else None,
            None)
  }

  predicate ReadsAuthority(base: Option<HttpUrl>, scheme: string, rest: string)
  {
    SlashCount(rest) >= 2 || base.None? || base.value.scheme != scheme
  }

  /** `parse` on a fresh builder. */
  function Parse(base: Option<HttpUrl>, input: string, host: HostFn): (r: Result<Builder, Failure>)
    requires base.Some? ==> InRange(base.value) && SegmentParts(base.value) != []
  {
    match ParseScheme(base, TrimBoth(input))
    case Err(e) => Err(e)
    case Ok((scheme, rest)) =>
      if ReadsAuthority(base, scheme, rest) then
        match ParseAuthority(rest[SlashCount(rest)..], "", "", false, false, scheme, host)
        case Err(e) => Err(e)
        case Ok(a) =>
          Ok(ParseTail(FRESH.(scheme := Some(scheme), username := a.username, password := a.password,
                              host := Some(a.host), port := a.port), a.rest))
      else
        Ok(ParseTail(Inherit(base.value, rest), rest))
  }

  // ---------------------------------------------------------------- parse undoes print

  /** What is left of a builder after printing and parsing: the port is spelled out, and trailing
      spaces of the fragment are trimmed. */
  function Reparsed(b: Builder): (r: Builder)
  {
    b.(port := EffectivePort(b),
       fragment := if b.fragment.Some? then Some(TrimRight(b.fragment.value)) else None)
  }

  function TrimFragment(b: Builder): (r: Builder)
  {
    b.(fragment := if b.fragment.Some? then Some(TrimRight(b.fragment.value)) else None)
  }

  lemma TrimFragmentCanonical(b: Builder, host: HostFn)
    requires Buildable(b, host)
    ensures Buildable(TrimFragment(b), host)
  {
    hide TrimRight, StableChar, SegmentsOk, ComponentsOk;
  }

  lemma StableNotSpace(m: Mode, s: string)
    requires Stable(m, s) && s != "" && ' ' in m.encodeSet
    ensures !IsSpace(s[|s| - 1])
  {
  }

  lemma {:induction false} PathLastNotSpace(segs: seq<string>)
    requires segs != [] && forall i :: 0 <= i < |segs| ==> SegmentOk(segs[i])
    ensures PathText(segs) != "" && !IsSpace(PathText(segs)[|PathText(segs)| - 1])
  {
    hide SegmentOk, IsSpace;
    SlashNotSpace();
    if |segs| > 1 {
      PathLastNotSpace(segs[1..]);
    } else {
      assert PathText(segs) == "/" + segs[0] + PathText([]);
      if segs[0] != "" {
        assert Stable(PathMode(true), segs[0]) by { SegmentStable(segs[0]); }
        StableNotSpace(PathMode(true), segs[0]);
      }
    }
  }

  lemma SegmentStable(s: string)
    requires SegmentOk(s)
    ensures Stable(PathMode(true), s)
  {
  }

  lemma SlashNotSpace()
    ensures !IsSpace('/') && !IsSpace('?') && !IsSpace('#')
  {
  }

  lemma EndTrimmed(front: string, b: Builder, host: HostFn)
    requires Buildable(b, host)
    ensures TrimRight(front + (PathText(b.segments) + (QueryText(b) + FragmentText(b))))
         == front + (PathText(b.segments) + (QueryText(b) + FragmentText(TrimFragment(b))))
  {
    hide PathText, SegmentOk, ComponentsOk, TrimRight, IsSpace, Join, Stable;
    SlashNotSpace();
    PathLastNotSpace(b.segments);
    var p, q := PathText(b.segments), QueryText(b);
    if b.query.Some? {
      JoinStable(b.query.value);
      var j := Join(b.query.value);
      if j != "" {
        StableNotSpace(QueryMode(true), j);
        assert q[|q| - 1] == j[|j| - 1];
      }
    }
    Assoc(front, p, q + FragmentText(b));
    Assoc(front + p, q, FragmentText(b));
    Assoc(front, p, q + FragmentText(TrimFragment(b)));
    Assoc(front + p, q, FragmentText(TrimFragment(b)));
    var x := (front + p) + q;
    assert x != "" && !IsSpace(x[|x| - 1]);
    if b.fragment.Some? {
      var f := b.fragment.value;
      Assoc(x, "#", f);
      Assoc(x, "#", TrimRight(f));
      TrimRightAppend(x + "#", f);
    } else {
      TrimRightAppend(x, "");
      assert TrimRight("") == "";
      assert x + "" == x;
    }
  }

  lemma PrintTrimmed(b: Builder, host: HostFn)
    requires Buildable(b, host)
    ensures TrimBoth(Print(b)) == Print(TrimFragment(b))
  {
    hide PathText, SegmentOk, ComponentsOk, TrimRight, Join, Stable, UserInfo, HostPort;
    var s, u, h := SchemeText(b), UserInfo(b), HostPort(b);
    var b1 := TrimFragment(b);
    SameFront(b, b1);
    assert Print(b)[0] == 'h' && !IsSpace('h');
    assert TrimLeft(Print(b)) == Print(b);
    hide SchemeText, QueryText, FragmentText, TrimLeft, TrimFragment, IsSpace;
    var x, x1 := PathText(b.segments) + (QueryText(b) + FragmentText(b)),
                 PathText(b.segments) + (QueryText(b) + FragmentText(b1));
    EndTrimmed((s + u) + h, b, host);
    Assoc(s + u, h, x);
    Assoc(s, u, h + x);
    Assoc(s + u, h, x1);
    Assoc(s, u, h + x1);
  }

  lemma SameFront(b: Builder, c: Builder)
    requires c == TrimFragment(b) && WellShaped(b)
    ensures SchemeText(c) == SchemeText(b) && UserInfo(c) == UserInfo(b) && HostPort(c) == HostPort(b)
         && QueryText(c) == QueryText(b) && c.segments == b.segments
  {
  }

  lemma SchemeReread(b: Builder, host: HostFn)
    requires Buildable(b, host)
    ensures ParseScheme(None, Print(b)) == Ok((b.scheme.value, "//" + AfterScheme(b)))
  {
    hide AfterScheme, PrintNat, PathText, Join, UserInfo, HostPort, QueryText, FragmentText;
    var s := Print(b);
    assert s == SchemeText(b) + AfterScheme(b);
    if b.scheme.value == "http" {
      assert s[..5] == "http:" && s[5..] == "//" + AfterScheme(b);
      assert SchemeScan(s, 4) == 4 && SchemeScan(s, 3) == 4 && SchemeScan(s, 2) == 4 && SchemeScan(s, 1) == 4;
      assert EqualsIgnoreCase(s[..5], "http:");
      assert s[4] == ':' && s[..6][4] == ':' && !SameLetter(':', 's');
    } else {
      assert s[..6] == "https:" && s[6..] == "//" + AfterScheme(b);
      assert SchemeScan(s, 5) == 5 && SchemeScan(s, 4) == 5 && SchemeScan(s, 3) == 5
          && SchemeScan(s, 2) == 5 && SchemeScan(s, 1) == 5;
      assert EqualsIgnoreCase(s[..6], "https:");
    }
  }

  lemma TwoSlashes(rest: string)
    requires rest != "" && rest[0] != '/' && rest[0] != '\\'
    ensures SlashCount("//" + rest) == 2 && ("//" + rest)[2..] == rest
  {
  }

  // ---------------------------------------------------------------- authority, read back

  lemma {:induction false} PortColonPlain(a: string, rest: string)
    requires Free(a, ":[") && (rest != "" ==> rest[0] == ':')
    ensures PortColon(a + rest) == |a|
  {
    if a == "" {
      assert a + rest == rest;
    } else {
      assert (a + rest)[1..] == a[1..] + rest;
      PortColonPlain(a[1..], rest);
    }
  }

  lemma PortColonBracket(h: string, rest: string)
    requires Free(h, "]") && (rest != "" ==> rest[0] == ':')
    ensures PortColon("[" + (h + ("]" + rest))) == |h| + 2
  {
    hide FirstOf, Skip, PortColon, Free;
    var s := "[" + (h + ("]" + rest));
    BracketSkipped(h, rest);
    PortColonStep(s);
    assert s[|h| + 2..] == rest;
    NoHostInFront(rest);
  }

  lemma PortColonStep(s: string)
    requires s != "" && s[0] != ':'
    ensures PortColon(s) == Skip(s) + PortColon(s[Skip(s)..])
  {
    hide Skip;
  }

  lemma NoHostInFront(rest: string)
    requires rest != "" ==> rest[0] == ':'
    ensures PortColon(rest) == 0
  {
  }

  lemma BracketSkipped(h: string, rest: string)
    requires Free(h, "]")
    ensures Skip("[" + (h + ("]" + rest))) == |h| + 2
  {
    hide FirstOf, Free;
    CutOut("[", h, "]" + rest, "]");
  }

  lemma PortColonHost(h: string, rest: string)
    requires Free(h, "@/\\?#[]%") && (rest != "" ==> rest[0] == ':')
    ensures PortColon(HostText(h) + rest) == |HostText(h)|
  {
    hide PortColon;
    if ':' in h {
      FreeFewer(h, "]", "@/\\?#[]%");
      Assoc("[" + h, "]", rest);
      Assoc("[", h, "]" + rest);
      PortColonBracket(h, rest);
    } else {
      FreeFewer(h, "[", "@/\\?#[]%");
      assert Free(h, ":[");
      PortColonPlain(h, rest);
    }
  }

  lemma {:induction false} DigitsStable(s: string)
    requires AllDigits(s)
    ensures Canon(PORT_MODE, s) == s
  {
    if s != "" {
      assert IsDigit(s[0]);
      DigitsStable(s[1..]);
    }
  }

  lemma PortReread(n: int)
    requires 0 < n <= 65535
    ensures ParsePort(PrintNat(n)) == n
  {
    DigitsStable(PrintNat(n));
    ParsePrint(n);
  }

  lemma HostPortReread(b: Builder, host: HostFn)
    requires Buildable(b, host)
    ensures ParseHostPort(HostPort(b), b.scheme.value, host) == Ok((b.host.value, EffectivePort(b)))
  {
    hide PrintNat, ParsePort, PortText, Stable, SegmentOk, ComponentsOk, PortColon, PercentDecoded;
    var h, p := HostText(b.host.value), PortText(b);
    PortTextFree(b, host);
    HostPortFree(b, host);
    PortColonHost(b.host.value, p);
    assert (h + p)[..|h|] == h;
    FreeFewer(b.host.value, "%", "@/\\?#[]%");
    assert '%' !in h;
    DecodePlain(h, false);
    if p != "" {
      assert (h + p)[|h| + 1..] == PrintNat(b.port);
      assert PrintNat(b.port) != "";
      PortReread(b.port);
      assert EffectivePort(b) == b.port;
    } else {
      NoPortIsDefault(b);
    }
  }

  lemma NoPortIsDefault(b: Builder)
    requires b.scheme.Some? && PortText(b) == ""
    ensures EffectivePort(b) == DefaultPort(b.scheme.value)
  {
  }

  lemma HostReread(b: Builder, host: HostFn, username: string, password: string, hasUsername: bool, hasPassword: bool)
    requires Buildable(b, host)
    ensures ParseAuthority(HostPort(b) + AfterAuthority(b), username, password,
                           hasUsername, hasPassword, b.scheme.value, host)
         == Ok(Authority(username, password, b.host.value, EffectivePort(b), AfterAuthority(b)))
  {
    hide HostPort, PathText, Stable, SegmentOk, ComponentsOk, QueryText, FragmentText, ParseHostPort, FirstOf, Canon;
    HostPortFree(b, host);
    PathBeforeTail(b, host);
    HostPortReread(b, host);
    var s := HostPort(b) + AfterAuthority(b);
    assert AfterAuthority(b)[0] == '/';
    hide AfterAuthority;
    CutOut("", HostPort(b), AfterAuthority(b), "@/\\?#");
    assert "" + s == s && s[0..] == s;
    assert s[|HostPort(b)|] == '/';
  }

  /** Where the delimiters of "user:password@rest" are. */
  lemma UserSlices(u: string, p: string, x: string)
    requires Free(u, ":@/\\?#") && Free(p, ":@/\\?#")
    ensures var c := if p == "" then "" else ":" + p;
            var s, k := u + (c + ("@" + x)), |u + c|;
            && FirstOf(s, "@/\\?#") == k && k < |s| && s[k] == '@' && s[k + 1..] == x
            && FirstOf(s[..k], ":") == |u| && s[..|u|] == u
            && (p == "" <==> |u| == k) && (p != "" ==> s[|u| + 1..k] == p)
  {
    hide FirstOf, Free;
    var c := if p == "" then "" else ":" + p;
    NothingHeld("@/\\?#");
    FreeFewer(u, "@/\\?#", ":@/\\?#");
    FreeFewer(p, "@/\\?#", ":@/\\?#");
    FreeFewer(u, ":", ":@/\\?#");
    FreeConcat(":", p, "@/\\?#");
    FreeConcat(u, c, "@/\\?#");
    Assoc(u, c, "@" + x);
    AtSlices(u + c, x);
    ColonSlices(u, c, "@" + x);
  }

  lemma NothingHeld(chars: string)
    ensures Free("", chars)
    ensures chars == "@/\\?#" ==> Free(":", chars)
  {
  }

  lemma AtSlices(front: string, x: string)
    requires Free(front, "@/\\?#")
    ensures var s, k := front + ("@" + x), |front|;
            FirstOf(s, "@/\\?#") == k && k < |s| && s[k] == '@' && s[k + 1..] == x && s[..k] == front
  {
  }

  lemma ColonSlices(u: string, c: string, rest: string)
    requires Free(u, ":") && (c != "" ==> c[0] == ':')
    ensures FirstOf(u + c, ":") == |u| && (u + (c + rest))[..|u|] == u
    ensures c != "" ==> (u + (c + rest))[|u| + 1..|u + c|] == c[1..]
  {
    hide FirstOf;
    FirstOfConcat(u, c, ":");
    assert FirstOf(c, ":") == 0;
  }

  lemma AuthorityUserStep(s: string, k: nat, c: nat, scheme: string, host: HostFn)
    requires k == FirstOf(s, "@/\\?#") && k < |s| && s[k] == '@' && c == FirstOf(s[..k], ":")
    ensures ParseAuthority(s, "", "", false, false, scheme, host)
         == ParseAuthority(s[k + 1..], Canon(UserMode(true), s[..c]),
                           if c < k then Canon(UserMode(true), s[c + 1..k]) else "", true, c < k, scheme, host)
  {
    hide Canon, FirstOf, ParseHostPort;
  }

  lemma UserStep(u: string, p: string, x: string, scheme: string, host: HostFn)
    requires Stable(UserMode(true), u) && Stable(UserMode(true), p)
    ensures ParseAuthority(u + ((if p == "" then "" else ":" + p) + ("@" + x)), "", "", false, false, scheme, host)
         == ParseAuthority(x, u, p, true, p != "", scheme, host)
  {
    hide Canon, FirstOf, Stable, ParseAuthority;
    var c := if p == "" then "" else ":" + p;
    UserFree(u);
    UserFree(p);
    UserSlices(u, p, x);
    AuthorityUserStep(u + (c + ("@" + x)), |u + c|, |u|, scheme, host);
    PlainSets();
    StableUnchanged(UserMode(true), u);
    StableUnchanged(UserMode(true), p);
  }

  lemma AuthorityReread(b: Builder, host: HostFn)
    requires Buildable(b, host)
    ensures ParseAuthority(AfterScheme(b), "", "", false, false, b.scheme.value, host)
         == Ok(Authority(b.username, b.password, b.host.value, EffectivePort(b), AfterAuthority(b)))
  {
    hide HostPort, PathText, Stable, SegmentOk, ComponentsOk, QueryText, FragmentText, ParseHostPort, FirstOf,
      Canon, ParseAuthority;
    var x := HostPort(b) + AfterAuthority(b);
    if b.username == "" && b.password == "" {
      assert AfterScheme(b) == x;
      HostReread(b, host, "", "", false, false);
    } else {
      UserInfoSplit(b, x);
      UserStep(b.username, b.password, x, b.scheme.value, host);
      HostReread(b, host, b.username, b.password, true, b.password != "");
    }
  }

  lemma AfterSchemeStart(b: Builder, host: HostFn)
    requires Buildable(b, host)
    ensures AfterScheme(b) != "" && AfterScheme(b)[0] != '/' && AfterScheme(b)[0] != '\\'
  {
  }

  // ---------------------------------------------------------------- path, read back

  lemma SegmentCanon(s: string)
    requires SegmentOk(s)
    ensures Canon(PathMode(true), s) == s
  {
    hide Stable;
    PlainSets();
    StableUnchanged(PathMode(true), s);
  }

  /** Pushing the segments of a printed path one by one rebuilds the list. */
  lemma {:induction false} PushPrinted(done: seq<string>, segs: seq<string>)
    requires segs != [] && forall i :: 0 <= i < |segs| ==> SegmentOk(segs[i])
    ensures PushAll(done + [""], PathText(segs)[1..]) == done + segs
    decreases |segs|
  {
    hide Canon, FirstOf, PushCanonical, SegmentOk, PushAll, PathText;
    var s, rest := segs[0], PathText(segs[1..]);
    PathTextCons(segs);
    PathTextEmpty();
    PathFree(segs[1..]);
    PushFirst(done, s, rest);
    if |segs| > 1 {
      PushPrinted(done + [s], segs[1..]);
      assert done + segs == (done + [s]) + segs[1..];
    } else {
      assert segs == [s] && segs[1..] == [];
    }
  }

  lemma PushFirst(done: seq<string>, s: string, rest: string)
    requires SegmentOk(s) && (rest != "" ==> rest[0] == '/')
    ensures PushAll(done + [""], s + rest)
         == if rest == "" then done + [s] else PushAll((done + [s]) + [""], rest[1..])
  {
    hide Canon, FirstOf, PushCanonical, SegmentOk, PushAll;
    var path := s + rest;
    SegmentFree(s);
    FreeFewer(s, "/\\", "/\\?#");
    SegmentCanon(s);
    CutOut("", s, rest, "/\\");
    assert "" + path == path && path[0..] == path && path[..|s|] == s;
    PushAllStep(done + [""], path, |s|);
    PushPlain(done, s, rest != "");
    if rest == "" {
      assert path == s && done + [s] + [] == done + [s];
      PushAllEmpty(done + [""]);
    } else {
      assert path[|s| + 1..] == rest[1..];
    }
  }

  lemma PathTextCons(segs: seq<string>)
    requires segs != []
    ensures PathText(segs) != "" && PathText(segs)[1..] == segs[0] + PathText(segs[1..])
  {
  }

  lemma PushAllEmpty(segs: seq<string>)
    requires segs != []
    ensures PushAll(segs, "") == segs
  {
  }

  lemma PushPlain(done: seq<string>, s: string, trailingSlash: bool)
    requires SegmentOk(s)
    ensures PushCanonical(done + [""], s, trailingSlash) == done + [s] + (if trailingSlash then [""] else [])
  {
  }

  lemma PushAllStep(segs: seq<string>, path: string, k: nat)
    requires segs != [] && k == FirstOf(path, "/\\")
    ensures PushAll(segs, path)
         == if path == "" then segs
            else if k < |path| then PushAll(Push(segs, path[..k], true, true), path[k + 1..])
            else Push(segs, path, false, true)
  {
    hide Push, FirstOf;
    assert k == |path| ==> path[..k] == path;
  }

  lemma PathReread(segs: seq<string>)
    requires SegmentsOk(segs)
    ensures ResolvePath([""], PathText(segs)) == segs
  {
    hide SegmentOk, PushAll;
    PathFree(segs);
    PushPrinted([], segs);
    assert [] + [""] == [""] && [] + segs == segs;
  }

  lemma TailReread(b: Builder, c: Builder, host: HostFn)
    requires Buildable(b, host)
    requires c.segments == [""] && c.query.None? && c.fragment.None?
    ensures ParseTail(c, AfterAuthority(b)) == c.(segments := b.segments, query := b.query, fragment := b.fragment)
  {
    hide PathText, Stable, SegmentOk, ComponentsOk, FirstOf, Canon, ResolvePath, QueryOf, Join;
    PathBeforeTail(b, host);
    PathReread(b.segments);
    QueryFragmentReread(b);
    var rest, p, t := AfterAuthority(b), PathText(b.segments), EndText(b);
    hide EndText, AfterAuthority, QueryText, FragmentText;
    assert rest == p + t && rest[..|p|] == p && rest[|p|..] == t;
    if b.fragment.Some? {
      StableUnchanged(FragmentMode(true), b.fragment.value);
    }
    TailParts(c, rest, |p|, t);
  }

  lemma TailParts(c: Builder, rest: string, k: nat, t: string)
    requires c.segments != [] && k == FirstOf(rest, "?#") && t == rest[k..]
    ensures ParseTail(c, rest)
         == var q := FirstOf(t, "#");
            c.(segments := ResolvePath(c.segments, rest[..k]),
               query := if t != "" && t[0] == '?' then QueryOf(QueryMode(true), Some(t[1..q])) else c.query,
               fragment := if q < |t| then Some(Canon(FragmentMode(true), t[q + 1..])) else c.fragment)
  {
    hide FirstOf, Canon, ResolvePath, QueryOf;
  }

  lemma QueryFragmentReread(b: Builder)
    requires b.segments != [] && (b.query.Some? ==> QueryOk(b.query.value))
    ensures var t := EndText(b); var q := FirstOf(t, "#");
            && (b.query.Some? <==> t != "" && t[0] == '?')
            && (b.query.Some? ==> QueryOf(QueryMode(true), Some(t[1..q])) == b.query)
            && (b.fragment.Some? <==> q < |t|)
            && (b.fragment.Some? ==> t[q + 1..] == b.fragment.value)
  {
    hide ComponentsOk, FirstOf, QueryOf, Join, Free;
    var f, t := FragmentText(b), EndText(b);
    if b.query.Some? {
      JoinFree(b.query.value);
      QueryReread(b.query.value);
      QueryPositions(Join(b.query.value), f);
    } else {
      assert t == f;
      assert f != "" ==> FirstOf(f, "#") == 0;
    }
  }

  lemma QueryPositions(j: string, f: string)
    requires Free(j, "#") && (f != "" ==> f[0] == '#')
    ensures var t := ("?" + j) + f;
            FirstOf(t, "#") == |j| + 1 && t[1..|j| + 1] == j && t[|j| + 1..] == f
            && (f != "" ==> t[|j| + 2..] == f[1..])
  {
  }

  /** The printed form of every canonical builder parses, and parsing it rebuilds the builder,
      with the effective port and without the spaces at the end of the fragment. */
  lemma ParsePrinted(b: Builder, host: HostFn)
    requires Buildable(b, host)
    ensures Parse(None, Print(b), host) == Ok(Reparsed(b))
  {
    hide Print, AfterScheme, AfterAuthority, Stable, SegmentOk, ComponentsOk, ParseTail, ParseScheme, ParseAuthority,
      SlashCount, TrimBoth, TrimRight;
    var b1 := TrimFragment(b);
    TrimFragmentCanonical(b, host);
    PrintTrimmed(b, host);
    SchemeReread(b1, host);
    AfterSchemeStart(b1, host);
    TwoSlashes(AfterScheme(b1));
    AuthorityReread(b1, host);
    TailReread(b1, FRESH.(scheme := b1.scheme, username := b1.username, password := b1.password,
                          host := b1.host, port := EffectivePort(b1)), host);
  }

  /** Canonical fixpoint: a printed builder is rebuilt exactly, port made explicit, if and only
      if its fragment does not end in a space. */
  lemma CanonicalFixpoint(b: Builder, host: HostFn)
    requires Buildable(b, host)
    ensures Parse(None, Print(b), host) == Ok(b.(port := EffectivePort(b)))
       <==> !(b.fragment.Some? && b.fragment.value != "" && b.fragment.value[|b.fragment.value| - 1] == ' ')
  {
    hide Print, Parse, SegmentOk, ComponentsOk;
    ParsePrinted(b, host);
    if b.fragment.Some? && b.fragment.value != "" {
      var f := b.fragment.value;
      assert StableChar(FragmentMode(true), f[|f| - 1]);
    }
  }
}
