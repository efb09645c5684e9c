/** Every builder a program can hold, and the laws that hold of all of them. */
module UrlHistory {
  import opened Text
  import opened Utf8
  import opened PercentCoding
  import opened QueryString
  import opened UrlBuilder
  import opened UrlCanonical
  import opened UrlShapes
  import opened HttpUrls
  import opened UrlParser

  // ---------------------------------------------------------------- parse yields canonical builders

  lemma AtEscapeStable()
    ensures Stable(UserMode(true), "%40")
  {
    PlainSets();
  }

  lemma AuthorityHostOk(text: string, scheme: string, host: HostFn)
    requires HostLaws(host) && (scheme == "http" || scheme == "https")
    ensures match ParseHostPort(text, scheme, host)
            case Ok((h, p)) => HostShape(host, h) && 0 < p <= 65535
            case Err(_) => true
  {
    hide ParsePort, PortColon, PercentDecoded, HostShape;
  }

  lemma {:induction false} AuthorityOk(s: string, username: string, password: string, hasUsername: bool,
                    hasPassword: bool, scheme: string, host: HostFn)
    requires HostLaws(host) && (scheme == "http" || scheme == "https")
    requires Stable(UserMode(true), username) && Stable(UserMode(true), password)
    ensures var r := ParseAuthority(s, username, password, hasUsername, hasPassword, scheme, host);
            r.Ok? ==> Stable(UserMode(true), r.value.username) && Stable(UserMode(true), r.value.password)
                      && HostShape(host, r.value.host) && 0 < r.value.port <= 65535
    decreases |s|
  {
    hide Canon, FirstOf, ParseHostPort, Stable, HostShape, HostLaws;
    var k := FirstOf(s, "@/\\?#");
    if k < |s| && s[k] == '@' {
      WeakerModes();
      AtEscapeStable();
      var c := FirstOf(s[..k], ":");
      var user := Canon(UserMode(true), s[..c]);
      var pass, more := if c < k then Canon(UserMode(true), s[c + 1..k]) else password,
                              Canon(UserMode(true), s[..k]);
      CanonOutputStable(UserMode(true), s[..c], UserMode(true));
      CanonOutputStable(UserMode(true), s[..k], UserMode(true));
      if c < k {
        CanonOutputStable(UserMode(true), s[c + 1..k], UserMode(true));
      }
      StableConcat(UserMode(true), username, "%40");
      StableConcat(UserMode(true), username + "%40", user);
      StableConcat(UserMode(true), password, "%40");
      StableConcat(UserMode(true), password + "%40", more);
      if !hasPassword {
        AuthorityOk(s[k + 1..], if hasUsername then username + "%40" + user else user, pass, true, c < k, scheme, host);
      } else {
        AuthorityOk(s[k + 1..], username, password + "%40" + more, hasUsername, true, scheme, host);
      }
    } else {
      AuthorityHostOk(s[..k], scheme, host);
    }
  }

  lemma TailOk(b: Builder, rest: string, host: HostFn)
    requires Canonical(b, host)
    ensures Canonical(ParseTail(b, rest), host)
  {
    hide Canon, FirstOf, ResolvePath, QueryOf, SegmentOk, ComponentsOk, HostShape, Stable;
    var k := FirstOf(rest, "?#");
    var t := rest[k..];
    var q := FirstOf(t, "#");
    ResolvePathOk(b.segments, rest[..k]);
    if t != "" && t[0] == '?' {
      QueryOfOk(true, Some(t[1..q]));
    }
    if q < |t| {
      WeakerModes();
      CanonOutputStable(FragmentMode(true), t[q + 1..], FragmentMode(true));
    }
    TailParts(b, rest, k, t);
    hide ParseTail;
  }

  lemma InheritOk(b: Builder, rest: string, host: HostFn)
    requires Buildable(b, host)
    ensures var u := Build(b).value;
            && InRange(u) && SegmentParts(u) != []
            && Inherit(u, rest) == b.(port := EffectivePort(b), fragment := None,
                                      query := if rest == "" || rest[0] == '#' then b.query else None)
            && Canonical(Inherit(u, rest), host)
            && Inherit(u, rest).segments != [] && Inherit(u, rest).scheme.Some? && Inherit(u, rest).host.Some?
  {
    hide Print, Stable, SegmentOk, ComponentsOk, DecodeList, Join, QueryOf, PercentDecoded, HostShape,
      UsernamePart, PasswordPart, SegmentParts, QueryPart, FragmentPart, InRange;
    AccessorsUndoPrinter(b, host);
    if b.query.Some? {
      QueryReread(b.query.value);
    } else {
      NoQuery();
    }
    assert 0 < EffectivePort(b) <= 65535;
  }

  predicate BaseOk(base: Option<Builder>, host: HostFn)
  {
    base.Some? ==> Buildable(base.value, host)
  }

  /** The URL a link is resolved against. */
  function BaseUrl(base: Option<Builder>, host: HostFn): (r: Option<HttpUrl>)
    requires BaseOk(base, host)
    ensures r.Some? ==> InRange(r.value) && SegmentParts(r.value) != []
    ensures r.Some? ==> r.value.scheme == "http" || r.value.scheme == "https"
  {
    if base.None? then None
    else
      InheritOk(base.value, "", host);
      Some(Build(base.value).value)
  }

  lemma SchemeOk(base: Option<HttpUrl>, s: string)
    requires base.Some? ==> base.value.scheme == "http" || base.value.scheme == "https"
    ensures var r := ParseScheme(base, s); r.Ok? ==> r.value.0 == "http" || r.value.0 == "https"
  {
  }

  /** Whatever `parse` accepts is canonical. */
  lemma ParseCanonical(base: Option<Builder>, input: string, host: HostFn)
    requires HostLaws(host) && BaseOk(base, host)
    ensures var r := Parse(BaseUrl(base, host), input, host);
            r.Ok? ==> Canonical(r.value, host) && r.value.scheme.Some? && r.value.host.Some?
  {
    hide Canonical, ParseScheme, ParseAuthority, ParseTail, TrimBoth, Inherit, SlashCount, InRange, SegmentParts, Build;
    var u := BaseUrl(base, host);
    SchemeOk(u, TrimBoth(input));
    match ParseScheme(u, TrimBoth(input))
    case Err(_) =>
    case Ok((scheme, rest)) =>
      if ReadsAuthority(u, scheme, rest) {
        hide HostLaws;
        var start := rest[SlashCount(rest)..];
        assert Stable(UserMode(true), "");
        AuthorityOk(start, "", "", false, false, scheme, host);
        var a := ParseAuthority(start, "", "", false, false, scheme, host);
        if a.Ok? {
          FreshWithAuthority(scheme, a.value, host);
          var b := FRESH.(scheme := Some(scheme), username := a.value.username, password := a.value.password,
                          host := Some(a.value.host), port := a.value.port);
          TailOk(b, a.value.rest, host);
          TailKeeps(b, a.value.rest);
        }
      } else {
        InheritOk(base.value, rest, host);
        TailOk(Inherit(u.value, rest), rest, host);
        TailKeeps(Inherit(u.value, rest), rest);
      }
  }

  lemma FreshWithAuthority(scheme: string, a: Authority, host: HostFn)
    requires scheme == "http" || scheme == "https"
    requires Stable(UserMode(true), a.username) && Stable(UserMode(true), a.password)
    requires HostShape(host, a.host) && 0 < a.port <= 65535
    ensures Canonical(FRESH.(scheme := Some(scheme), username := a.username, password := a.password,
                             host := Some(a.host), port := a.port), host)
  {
  }

  lemma TailKeeps(b: Builder, rest: string)
    requires b.segments != []
    ensures ParseTail(b, rest).scheme == b.scheme && ParseTail(b, rest).host == b.host
  {
    hide Canon, FirstOf, ResolvePath, QueryOf;
  }

  // ---------------------------------------------------------------- parsed fragments

  predicate EndsInSpace(f: Option<string>)
  {
    f.Some? && f.value != "" && f.value[|f.value| - 1] == ' '
  }

  lemma {:induction false} CanonLast(m: Mode, s: string)
    requires m.alreadyEncoded && s != "" && !IsSpace(s[|s| - 1])
    ensures var r := Canon(m, s); r != "" && r[|r| - 1] != ' '
  {
    hide EncodeChar, MustEscape;
    if |s| == 1 {
      assert s[1..] == "" && Canon(m, "") == "";
      EscapeLast(s[0]);
    } else {
      assert s[1..][|s[1..]| - 1] == s[|s| - 1];
      CanonLast(m, s[1..]);
    }
  }

  lemma EscapeLast(c: char)
    ensures Escape(c) != "" && Escape(c)[|Escape(c)| - 1] != ' '
  {
    hide EncodeChar;
    EscapeBytesLast(EncodeChar(c));
  }

  lemma {:induction false} EscapeBytesLast(bytes: seq<Byte>)
    requires bytes != []
    ensures var r := EscapeBytes(bytes); r != "" && r[|r| - 1] != ' '
  {
    if |bytes| > 1 {
      EscapeBytesLast(bytes[1..]);
    } else {
      assert EscapeBytes(bytes[1..]) == "";
      assert IsHex(HexDigit((bytes[0] % 16) as int));
    }
  }

  lemma TailFragment(b: Builder, rest: string)
    requires b.segments != [] && b.fragment.None?
    requires NotSpaceEnded(rest)
    ensures !EndsInSpace(ParseTail(b, rest).fragment)
  {
    hide Canon, FirstOf, ResolvePath, QueryOf, IsSpace;
    var t := rest[FirstOf(rest, "?#")..];
    var q := FirstOf(t, "#");
    if q < |t| && t[q + 1..] != "" {
      var f := t[q + 1..];
      assert f[|f| - 1] == rest[|rest| - 1];
      CanonLast(FragmentMode(true), f);
    }
    assert Canon(FragmentMode(true), "") == "" by { CanonEmpty(FragmentMode(true)); }
  }

  predicate SuffixOf(t: string, s: string) { |t| <= |s| && t == s[|s| - |t|..] }

  lemma {:induction false} AuthorityRest(s: string, username: string, password: string, hasUsername: bool,
                    hasPassword: bool, scheme: string, host: HostFn)
    ensures var r := ParseAuthority(s, username, password, hasUsername, hasPassword, scheme, host);
            r.Ok? ==> SuffixOf(r.value.rest, s)
    decreases |s|
  {
    hide Canon, FirstOf, ParseHostPort;
    var k := FirstOf(s, "@/\\?#");
    if k < |s| && s[k] == '@' {
      var t := s[k + 1..];
      var c := FirstOf(s[..k], ":");
      if !hasPassword {
        var user := Canon(UserMode(true), s[..c]);
        AuthorityRest(t, if hasUsername then username + "%40" + user else user,
                      if c < k then Canon(UserMode(true), s[c + 1..k]) else password, true, c < k, scheme, host);
      } else {
        AuthorityRest(t, username, password + "%40" + Canon(UserMode(true), s[..k]), hasUsername, true, scheme, host);
      }
    }
  }

  lemma SchemeRest(base: Option<HttpUrl>, s: string)
    ensures var r := ParseScheme(base, s); r.Ok? ==> SuffixOf(r.value.1, s)
  {
    hide EqualsIgnoreCase, SchemeDelimiter;
  }

  /** A builder that comes from `parse` never has a fragment that ends in a space. */
  lemma ParsedFragment(base: Option<HttpUrl>, input: string, host: HostFn)
    requires base.Some? ==> InRange(base.value) && SegmentParts(base.value) != []
    ensures var r := Parse(base, input, host); r.Ok? ==> !EndsInSpace(r.value.fragment)
  {
    hide ParseScheme, ParseAuthority, ParseTail, SlashCount, InRange, SegmentParts, EndsInSpace, NotSpaceEnded,
      TrimLeft, TrimRight, TrimBoth, IsSpace, SuffixOf;
    var s := TrimBoth(input);
    TrimmedEnd(input);
    SchemeRest(base, s);
    match ParseScheme(base, s)
    case Err(_) =>
    case Ok((scheme, rest)) =>
      SuffixEnd(rest, s);
      if ReadsAuthority(base, scheme, rest) {
        var start := rest[SlashCount(rest)..];
        DropSuffix(rest, SlashCount(rest));
        SuffixEnd(start, rest);
        AuthorityRest(start, "", "", false, false, scheme, host);
        var a := ParseAuthority(start, "", "", false, false, scheme, host);
        if a.Ok? {
          SuffixEnd(a.value.rest, start);
          TailFragment(FRESH.(scheme := Some(scheme), username := a.value.username, password := a.value.password,
                              host := Some(a.value.host), port := a.value.port), a.value.rest);
        }
      } else {
        TailFragment(Inherit(base.value, rest), rest);
      }
  }

  predicate NotSpaceEnded(s: string) { s != "" ==> !IsSpace(s[|s| - 1]) }

  lemma TrimmedEnd(s: string)
    ensures NotSpaceEnded(TrimBoth(s))
  {
    hide TrimLeft, IsSpace;
  }

  lemma SuffixEnd(t: string, s: string)
    requires SuffixOf(t, s) && NotSpaceEnded(s)
    ensures NotSpaceEnded(t)
  {
    hide IsSpace;
  }

  lemma DropSuffix(s: string, n: nat)
    requires n <= |s|
    ensures SuffixOf(s[n..], s)
  {
  }

  // ---------------------------------------------------------------- histories

  /** How a program came by a builder: from scratch, by an edit, from a string, by resolving a link
      against a URL built earlier, or by reopening such a URL. */
  datatype History =
    | Fresh
    | Edited(before: History, edit: Edit)
    | FromText(text: string)
    | Resolved(base: History, link: string)
    | Reopened(base: History)

  /** The builder at the end of a history, or the exception that ended it. Every builder that any
      history reaches is canonical. */
  ghost function Run(h: History, host: HostFn): (r: Result<Builder, Failure>)
    requires HostLaws(host)
    ensures r.Ok? ==> Canonical(r.value, host)
  {
    match h
    case Fresh =>
      FreshCanonical(host);
      Ok(FRESH)
    case FromText(text) =>
      ParseCanonical(None, text, host);
      Parse(None, text, host)
    case Edited(before, edit) =>
      (match Run(before, host)
       case Err(e) => Err(e)
       case Ok(b) =>
         ApplyKeepsCanonical(b, edit, host);
         Apply(b, edit, host))
    case Resolved(base, link) =>
      (match Run(base, host)
       case Err(e) => Err(e)
       case Ok(b) =>
         if b.scheme.None? then Err(NoScheme)
         else if b.host.None? then Err(NoHost)
         else
           ParseCanonical(Some(b), link, host);
           Parse(BaseUrl(Some(b), host), link, host))
    case Reopened(base) =>
      (match Run(base, host)
       case Err(e) => Err(e)
       case Ok(b) =>
         if b.scheme.None? then Err(NoScheme)
         else if b.host.None? then Err(NoHost)
         else
           NewBuilderRebuilds(b, host);
           ReopenedCanonical(b, host);
           Ok(NewBuilder(Build(b).value)))
  }

  lemma ReopenedCanonical(b: Builder, host: HostFn)
    requires Buildable(b, host)
    ensures Canonical(DropDefaultPort(b), host)
  {
    hide Stable, SegmentsOk, QueryOk, HostShape, PortText;
  }

  /** For every reachable builder with a scheme and a host: printing, parsing and building again
      gives an equal `HttpUrl`, unless the fragment ends in a space, and then it never does. */
  lemma ReachableFixpoint(h: History, host: HostFn)
    requires HostLaws(host)
    ensures Run(h, host).Ok? && Run(h, host).value.scheme.Some? && Run(h, host).value.host.Some? ==>
            var b := Run(h, host).value;
            && Parse(None, Print(b), host) == Ok(Reparsed(b))
            && (Parse(None, Print(b), host) == Ok(b.(port := EffectivePort(b))) <==> !EndsInSpace(b.fragment))
            && (Build(Parse(None, Print(b), host).value) == Build(b) <==> !EndsInSpace(b.fragment))
  {
    hide Run, Parse, Print, Canonical, HostLaws;
    if Run(h, host).Ok? && Run(h, host).value.scheme.Some? && Run(h, host).value.host.Some? {
      var b := Run(h, host).value;
      ParsePrinted(b, host);
      CanonicalFixpoint(b, host);
      RebuiltEqual(b, host);
    }
  }

  /** The failing side is not empty: a fragment set through the builder can end in a space, and then the
      URL does not survive printing and parsing. */
  lemma SpaceIsLost() returns (h: History)
    ensures HostLaws(PlainNames) && Run(h, PlainNames).Ok?
    ensures var b := Run(h, PlainNames).value;
            && b.scheme.Some? && b.host.Some? && EndsInSpace(b.fragment)
            && Parse(None, Print(b), PlainNames).Ok? && WellShaped(Parse(None, Print(b), PlainNames).value)
            && Build(Parse(None, Print(b), PlainNames).value) != Build(b)
  {
    PlainNamesObey();
    var edits := [Scheme("http"), Host("a"), Fragment(Some("b "))];
    h := Edited(Edited(Edited(Fresh, edits[0]), edits[1]), edits[2]);
    SpaceKept();
    ReachableFixpoint(h, PlainNames);
  }

  lemma RunEdited(h: History, e: Edit, host: HostFn)
    requires HostLaws(host) && Run(h, host).Ok?
    ensures Canonical(Run(h, host).value, host) && Run(Edited(h, e), host) == Apply(Run(h, host).value, e, host)
  {
    hide HostLaws, Canonical, Apply;
  }

  lemma SpaceKept()
    ensures HostLaws(PlainNames)
    ensures var r := Run(Edited(Edited(Edited(Fresh, Scheme("http")), Host("a")), Fragment(Some("b "))), PlainNames);
            r.Ok? && r.value.scheme.Some? && r.value.host.Some? && r.value.fragment == Some("b ")
  {
    PlainNamesObey();
    hide HostLaws, Canonical, Run, Canon;
    var h1 := Edited(Fresh, Scheme("http"));
    var h2 := Edited(h1, Host("a"));
    RunFresh(PlainNames);
    RunEdited(Fresh, Scheme("http"), PlainNames);
    RunEdited(h1, Host("a"), PlainNames);
    DecodePlain("a", false);
    assert PlainNames("a") == Some("a");
    RunEdited(h2, Fragment(Some("b ")), PlainNames);
    SpaceCanon();
  }

  lemma SpaceCanon()
    ensures Canon(FragmentMode(false), "b ") == "b "
  {
    assert "b "[1..] == " " && " "[1..] == "";
    assert Canon(FragmentMode(false), " ") == " ";
  }

  lemma RunFresh(host: HostFn)
    requires HostLaws(host)
    ensures Run(Fresh, host) == Ok(FRESH)
  {
    hide HostLaws, Canonical;
  }

  lemma RebuiltEqual(b: Builder, host: HostFn)
    requires Buildable(b, host)
    ensures WellShaped(Reparsed(b))
    ensures Build(Reparsed(b)) == Build(b) <==> !EndsInSpace(b.fragment)
  {
    hide PathText, Join, PercentDecoded, DecodeList, SegmentOk, ComponentsOk, DecodeOption, HostShape;
    var r := Reparsed(b);
    assert EffectivePort(r) == EffectivePort(b) && PortText(r) == PortText(b);
    if b.fragment.Some? {
      var f := b.fragment.value;
      if f != "" {
        assert StableChar(FragmentMode(true), f[|f| - 1]);
      }
      assert EndsInSpace(b.fragment) <==> TrimRight(f) != f;
    }
    SamePrint(b, r);
  }

  lemma SamePrint(b: Builder, r: Builder)
    requires WellShaped(b) && WellShaped(r)
    requires r == b.(port := r.port, fragment := r.fragment) && PortText(r) == PortText(b)
    ensures Print(r) == Print(b) <==> FragmentText(r) == FragmentText(b)
  {
    hide PathText, Join, PortText, QueryText, SchemeText, UserInfo, FragmentText;
    SameParts(b, r);
    FrontSplit(b);
    FrontSplit(r);
    hide Print, HostPort;
    var x, q := SchemeText(b) + UserInfo(b) + HostPort(b) + PathText(b.segments), QueryText(b);
    Assoc(x, q, FragmentText(b));
    Assoc(x, q, FragmentText(r));
    SamePrefix(x + q, FragmentText(b), FragmentText(r));
  }

  lemma SamePrefix(x: string, a: string, b: string)
    ensures x + a == x + b <==> a == b
  {
    assert (x + a)[|x|..] == a && (x + b)[|x|..] == b;
  }

  lemma SameParts(b: Builder, r: Builder)
    requires WellShaped(b) && WellShaped(r)
    requires r == b.(port := r.port, fragment := r.fragment) && PortText(r) == PortText(b)
    ensures SchemeText(r) == SchemeText(b) && QueryText(r) == QueryText(b)
    ensures UserInfo(r) == UserInfo(b) && HostPort(r) == HostPort(b)
  {
    hide PortText;
  }
}
