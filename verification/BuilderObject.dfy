/** `HttpUrl.Builder` as the mutable object it is: every method is proved against the functions
    of `UrlBuilder` and `UrlParser`. */
module BuilderObject {
  import opened Text
  import opened PercentCoding
  import opened QueryString
  import opened UrlBuilder
  import opened HttpUrls
  import P = UrlParser
  import S = UrlShapes

  class HttpUrlBuilder {
    var scheme: Option<string>
    var encodedUsername: string
    var encodedPassword: string
    var host: Option<string>
    var port: int
    var encodedPathSegments: seq<string>
    var encodedQueryNamesAndValues: Option<NamesAndValues>
    var encodedFragment: Option<string>

    function State(): (b: Builder)
      reads this
    {
      Builder(scheme, encodedUsername, encodedPassword, host, port, encodedPathSegments,
              encodedQueryNamesAndValues, encodedFragment)
    }

    constructor ()
      ensures State() == FRESH
    {
      scheme, encodedUsername, encodedPassword := None, "", "";
      host, port := None, -1;
      encodedPathSegments, encodedQueryNamesAndValues, encodedFragment := [""], None, None;
    }

    // -------------------------------------------------------------- path

    method PopSegment()
      requires encodedPathSegments != []
      modifies this`encodedPathSegments
      ensures encodedPathSegments == Pop(old(encodedPathSegments))
    {
      var removed := encodedPathSegments[|encodedPathSegments| - 1];
      encodedPathSegments := encodedPathSegments[..|encodedPathSegments| - 1];
      if removed == "" && encodedPathSegments != [] {
        encodedPathSegments := encodedPathSegments[|encodedPathSegments| - 1 := ""];
      } else {
        encodedPathSegments := encodedPathSegments + [""];
      }
    }

    method PushSegment(input: string, pos: nat, limit: nat, addTrailingSlash: bool, alreadyEncoded: bool)
      requires pos <= limit <= |input|
      requires encodedPathSegments != []
      modifies this`encodedPathSegments
      ensures encodedPathSegments == Push(old(encodedPathSegments), input[pos..limit], addTrailingSlash, alreadyEncoded)
    {
      hide Canon, IsDot, IsDotDot;
      var segment := Canonicalize(input, pos, limit, PathMode(alreadyEncoded));
      if IsDot(segment) {
        return;
      }
      if IsDotDot(segment) {
        PopSegment();
        return;
      }
      if encodedPathSegments[|encodedPathSegments| - 1] == "" {
        encodedPathSegments := encodedPathSegments[|encodedPathSegments| - 1 := segment];
      } else {
        encodedPathSegments := encodedPathSegments + [segment];
      }
      if addTrailingSlash {
        encodedPathSegments := encodedPathSegments + [""];
      }
    }

    method ResolvePathText(input: string, start: nat, limit: nat)
      requires start <= limit <= |input|
      requires encodedPathSegments != []
      modifies this`encodedPathSegments
      ensures encodedPathSegments == ResolvePath(old(encodedPathSegments), input[start..limit])
    {
      hide Push, FirstOf, PushAll;
      var pos := start;
      if pos == limit {
        return;
      }
      ghost var path := input[start..limit];
      var c := input[pos];
      assert path[0] == c && path[1..] == input[start + 1..limit];
      if c == '/' || c == '\\' {
        encodedPathSegments := [""];
        pos := pos + 1;
      } else {
        encodedPathSegments := encodedPathSegments[|encodedPathSegments| - 1 := ""];
      }
      ghost var begun := encodedPathSegments;
      ghost var rest := input[pos..limit];
      var i := pos;
      while i < limit
        invariant pos <= i <= limit && encodedPathSegments != []
        invariant PushAll(encodedPathSegments, input[i..limit]) == PushAll(begun, rest)
        modifies this`encodedPathSegments
        decreases limit - i
      {
        var delimiter := DelimiterOffset(input, i, limit, "/\\");
        ghost var text, k := input[i..limit], delimiter - i;
        P.PushAllStep(encodedPathSegments, text, k);
        assert text[..k] == input[i..delimiter] && (k == |text| ==> text[..k] == text);
        assert k < |text| ==> text[k + 1..] == input[delimiter + 1..limit];
        var hasTrailingSlash := delimiter < limit;
        PushSegment(input, i, delimiter, hasTrailingSlash, true);
        i := delimiter;
        if hasTrailingSlash {
          i := i + 1;
        } else {
          assert input[limit..limit] == "";
          P.PushAllEmpty(encodedPathSegments);
        }
      }
      assert input[limit..limit] == "";
      P.PushAllEmpty(encodedPathSegments);
    }

    method AddPathSegmentsText(pathSegments: string, alreadyEncoded: bool)
      requires encodedPathSegments != []
      modifies this`encodedPathSegments
      ensures encodedPathSegments == AddSegments(old(encodedPathSegments), pathSegments, alreadyEncoded)
    {
      hide Push, FirstOf, AddSegments;
      var offset := 0;
      assert pathSegments[0..] == pathSegments;
      ghost var goal := AddSegments(encodedPathSegments, pathSegments, alreadyEncoded);
      while offset <= |pathSegments|
        invariant 0 <= offset <= |pathSegments| + 1 && encodedPathSegments != []
        invariant goal == if offset <= |pathSegments|
                         then AddSegments(encodedPathSegments, pathSegments[offset..], alreadyEncoded)
                          else encodedPathSegments
        modifies this`encodedPathSegments
        decreases |pathSegments| + 1 - offset
      {
        var segmentEnd := DelimiterOffset(pathSegments, offset, |pathSegments|, "/\\");
        AddSegmentsStep(encodedPathSegments, pathSegments, offset, segmentEnd, alreadyEncoded);
        PushSegment(pathSegments, offset, segmentEnd, segmentEnd < |pathSegments|, alreadyEncoded);
        offset := segmentEnd + 1;
      }
    }

    // -------------------------------------------------------------- query

    /** Removes pairs from the back, and the list itself once it is empty. */
    method RemoveAllCanonicalQueryParameters(canonicalName: string)
      requires encodedQueryNamesAndValues.Some? && encodedQueryNamesAndValues.value != []
      requires |encodedQueryNamesAndValues.value| % 2 == 0
      modifies this`encodedQueryNamesAndValues
      ensures encodedQueryNamesAndValues == RemoveParameters(old(encodedQueryNamesAndValues), canonicalName)
    {
      var list := encodedQueryNamesAndValues.value;
      ghost var all := list;
      var i := |list| - 2;
      while i >= 0
        invariant -2 <= i <= |all| - 2 && i % 2 == 0
        invariant list == all[..i + 2] + WithoutName(all[i + 2..], canonicalName)
        invariant list != [] && encodedQueryNamesAndValues == Some(list)
        modifies this`encodedQueryNamesAndValues
        decreases i + 2
      {
        ghost var rest := WithoutName(all[i + 2..], canonicalName);
        assert all[i..][2..] == all[i + 2..] && all[i..][..2] == all[i..i + 2];
        assert all[..i + 2] == all[..i] + all[i..i + 2];
        if list[i] == Some(canonicalName) {
          list := list[..i] + list[i + 2..];
          assert list == all[..i] + rest;
          encodedQueryNamesAndValues := Some(list);
          if list == [] {
            assert i == 0 && all[0..] == all;
            encodedQueryNamesAndValues := None;
            return;
          }
        }
        i := i - 2;
      }
      assert all[..0] == [] && all[0..] == all && list == WithoutName(all, canonicalName);
    }

    // -------------------------------------------------------------- printing

    /** `toString`: the appends in order. */
    method ToText() returns (result: string)
      requires WellShaped(State())
      ensures result == Print(State())
    {
      ghost var b := State();
      result := "";
      if scheme.Some? {
        result := result + scheme.value;
        result := result + "://";
      } else {
        result := result + "//";
      }
      assert result == SchemeText(b);
      hide SchemeText, UserInfo, HostText, PortText, PathText, QueryText, FragmentText;
      result := AppendUserInfo(result);
      result := AppendHost(result);
      result := AppendPort(result);
      S.Assoc(SchemeText(b) + UserInfo(b), if host.Some? then HostText(host.value) else "", PortText(b));
      result := PathToString(result);
      result := AppendQueryAndFragment(result);
      Regroup(SchemeText(b), UserInfo(b), HostPort(b), PathText(b.segments), QueryText(b) + FragmentText(b));
    }

    method AppendQueryAndFragment(start: string) returns (result: string)
      requires WellShaped(State())
      ensures result == start + (QueryText(State()) + FragmentText(State()))
    {
      hide Join;
      result := start;
      if encodedQueryNamesAndValues.Some? {
        result := result + "?";
        var query := NamesAndValuesToQueryString(encodedQueryNamesAndValues.value);
        result := result + query;
      }
      assert result == start + QueryText(State());
      if encodedFragment.Some? {
        result := result + "#";
        result := result + encodedFragment.value;
      }
    }

    method AppendUserInfo(start: string) returns (result: string)
      ensures result == start + UserInfo(State())
    {
      result := start;
      if encodedUsername != "" || encodedPassword != "" {
        result := result + encodedUsername;
        if encodedPassword != "" {
          result := result + ":";
          result := result + encodedPassword;
        }
        result := result + "@";
      }
    }

    method AppendHost(start: string) returns (result: string)
      ensures result == start + if host.Some? then HostText(host.value) else ""
    {
      result := start;
      if host.Some? {
        if ':' in host.value {
          result := result + "[";
          result := result + host.value;
          result := result + "]";
        } else {
          result := result + host.value;
        }
      }
    }

    method AppendPort(start: string) returns (result: string)
      ensures result == start + PortText(State())
    {
      hide PrintInt;
      result := start;
      if port != -1 || scheme.Some? {
        var effectivePort := if port != -1 then port else DefaultPort(scheme.value);
        if scheme.None? || effectivePort != DefaultPort(scheme.value) {
          result := result + ":";
          result := result + PrintInt(effectivePort);
        }
      }
    }

    /** `pathSegmentsToString`. */
    method PathToString(start: string) returns (out: string)
      ensures out == start + PathText(encodedPathSegments)
    {
      hide PathText;
      out := start;
      var i := 0;
      S.PathTextEmpty();
      assert encodedPathSegments[0..] == encodedPathSegments;
      while i < |encodedPathSegments|
        invariant 0 <= i <= |encodedPathSegments|
        invariant out + PathText(encodedPathSegments[i..]) == start + PathText(encodedPathSegments)
      {
        ghost var rest := encodedPathSegments[i..];
        S.PathTextUnfold(rest);
        assert rest[1..] == encodedPathSegments[i + 1..];
        out := out + "/";
        out := out + encodedPathSegments[i];
        i := i + 1;
      }
      assert encodedPathSegments[i..] == [] && out + "" == out;
    }

    // -------------------------------------------------------------- parsing

    /** The authority loop of `parse`: user info at every '@', then host and port. */
    method ParseAuthorityText(input: string, start: nat, limit: nat, canonicalizeHost: HostFn)
      returns (failure: Option<Failure>, end: nat)
      requires start <= limit <= |input|
      requires scheme.Some? && encodedUsername == "" && encodedPassword == ""
      modifies this`encodedUsername, this`encodedPassword, this`host, this`port
      ensures end <= limit
      ensures match P.ParseAuthority(input[start..limit], "", "", false, false, scheme.value, canonicalizeHost)
              case Err(e) => failure == Some(e)
              case Ok(a) => failure == None && encodedUsername == a.username && encodedPassword == a.password
                            && host == Some(a.host) && port == a.port && input[end..limit] == a.rest
    {
      hide Canon, FirstOf, P.ParseAuthority, P.ParseHostPort;
      var hasUsername, hasPassword := false, false;
      var pos := start;
      ghost var goal := P.ParseAuthority(input[start..limit], "", "", false, false, scheme.value, canonicalizeHost);
      while true
        invariant start <= pos <= limit
        invariant P.ParseAuthority(input[pos..limit], encodedUsername, encodedPassword, hasUsername, hasPassword,
                                   scheme.value, canonicalizeHost) == goal
        modifies this`encodedUsername, this`encodedPassword, this`host, this`port
        decreases limit - pos
      {
        var delimiter := DelimiterOffset(input, pos, limit, "@/\\?#");
        ghost var s, k := input[pos..limit], delimiter - pos;
        assert s[..k] == input[pos..delimiter] && s[k..] == input[delimiter..limit];
        assert k < |s| ==> s[k] == input[delimiter] && s[k + 1..] == input[delimiter + 1..limit];
        AuthorityStep(s, encodedUsername, encodedPassword, hasUsername, hasPassword, scheme.value, canonicalizeHost, k);
        if delimiter < limit && input[delimiter] == '@' {
          hasUsername, hasPassword := ReadUserInfo(input, pos, delimiter, hasUsername, hasPassword);
          pos := delimiter + 1;
        } else {
          failure := ParseHostText(input, pos, delimiter, canonicalizeHost);
          return failure, delimiter;
        }
      }
    }

    /** The text in front of one '@'; an earlier '@' was part of the user info. */
    method ReadUserInfo(input: string, pos: nat, delimiter: nat, hadUsername: bool, hadPassword: bool)
      returns (hasUsername: bool, hasPassword: bool)
      requires pos <= delimiter <= |input|
      modifies this`encodedUsername, this`encodedPassword
      ensures (encodedUsername, encodedPassword, hasUsername, hasPassword)
           == UserInfoStep(input[pos..delimiter], old(encodedUsername), old(encodedPassword), hadUsername, hadPassword)
    {
      hide Canon, FirstOf;
      hasUsername, hasPassword := hadUsername, hadPassword;
      if !hasPassword {
        var colon := DelimiterOffset(input, pos, delimiter, ":");
        SliceSlice(input, pos, delimiter, 0, colon - pos);
        var user := Canonicalize(input, pos, colon, UserMode(true));
        encodedUsername := if hasUsername then encodedUsername + "%40" + user else user;
        if colon != delimiter {
          SliceSlice(input, pos, delimiter, colon - pos + 1, delimiter - pos);
          hasPassword := true;
          encodedPassword := Canonicalize(input, colon + 1, delimiter, UserMode(true));
        }
        hasUsername := true;
      } else {
        var more := Canonicalize(input, pos, delimiter, UserMode(true));
        encodedPassword := encodedPassword + "%40" + more;
      }
    }

    method ParseHostText(input: string, pos: nat, limit: nat, canonicalizeHost: HostFn)
      returns (failure: Option<Failure>)
      requires pos <= limit <= |input| && scheme.Some?
      modifies this`host, this`port
      ensures match P.ParseHostPort(input[pos..limit], scheme.value, canonicalizeHost)
              case Err(e) => failure == Some(e)
              case Ok((h, p)) => failure == None && host == Some(h) && port == p
    {
      hide Canon, PercentDecoded, P.PortColon, ParseInteger;
      var colon := PortColonOffset(input, pos, limit);
      ghost var s, c := input[pos..limit], colon - pos;
      assert s[..c] == input[pos..colon];
      assert c < |s| ==> s[c + 1..] == input[colon + 1..limit];
      var decoded := PercentDecode(input, pos, colon, false);
      host := canonicalizeHost(decoded);
      if colon + 1 < limit {
        var portString := Canonicalize(input, colon + 1, limit, PORT_MODE);
        var number := ParseInteger(portString);
        port := if number.Some? && 0 < number.value <= 65535 then number.value else -1;
        if port == -1 {
          return Some(BadPort);
        }
      } else {
        port := DefaultPort(scheme.value);
      }
      if host == None {
        return Some(BadHost);
      }
      return None;
    }

    /** `parse` on a fresh builder; an exception leaves the builder to be thrown away. */
    method ParseText(base: Option<HttpUrl>, input: string, canonicalizeHost: HostFn) returns (failure: Option<Failure>)
      requires State() == FRESH
      requires base.Some? ==> InRange(base.value) && SegmentParts(base.value) != []
      modifies this
      ensures match P.Parse(base, input, canonicalizeHost)
              case Err(e) => failure == Some(e)
              case Ok(b) => failure == None && State() == b
    {
      hide Canon, FirstOf, P.ParseAuthority, P.ParseTail, P.ParseScheme, SegmentParts, UsernamePart, PasswordPart,
        QueryPart, InRange, QueryOf, TrimLeft, TrimRight, P.SlashCount, P.Inherit;
      var pos := SkipLeading(input);
      var limit := SkipTrailing(input, pos);
      assert input[pos..limit] == TrimBoth(input);
      failure, pos := ParseSchemeText(base, input, pos, limit);
      if failure != None {
        return;
      }
      ghost var rest := input[pos..limit];
      var slashCount := SlashCountAt(input, pos, limit);
      if slashCount >= 2 || base.None? || base.value.scheme != scheme.value {
        assert rest[slashCount..] == input[pos + slashCount..limit];
        failure, pos := ParseAuthorityText(input, pos + slashCount, limit, canonicalizeHost);
        if failure != None {
          return;
        }
      } else {
        InheritFrom(base.value, pos == limit || input[pos] == '#', rest);
      }
      ParseTailText(input, pos, limit);
      failure := None;
    }

    /** A relative link copies the authority, the path and maybe the query of the base. */
    method InheritFrom(base: HttpUrl, keepQuery: bool, ghost rest: string)
      requires InRange(base) && (keepQuery <==> rest == "" || rest[0] == '#')
      modifies this`encodedUsername, this`encodedPassword, this`host, this`port, this`encodedPathSegments,
        this`encodedQueryNamesAndValues
      ensures encodedUsername == UsernamePart(base) && encodedPassword == PasswordPart(base)
      ensures host == Some(base.host) && port == base.port && encodedPathSegments == SegmentParts(base)
      ensures encodedQueryNamesAndValues
           == if keepQuery then QueryOf(QueryMode(true), QueryPart(base)) else old(encodedQueryNamesAndValues)
      ensures old(State()) == FRESH.(scheme := Some(base.scheme)) ==> State() == P.Inherit(base, rest)
    {
      hide Canon, FirstOf, Split;
      encodedUsername := UsernamePart(base);
      encodedPassword := PasswordPart(base);
      host := Some(base.host);
      port := base.port;
      encodedPathSegments := PathSegmentsLoop(base);
      if keepQuery {
        encodedQueryNamesAndValues := QueryOf(QueryMode(true), QueryPart(base));
      }
    }

    method ParseSchemeText(base: Option<HttpUrl>, input: string, start: nat, limit: nat)
      returns (failure: Option<Failure>, pos: nat)
      requires start <= limit <= |input|
      modifies this`scheme
      ensures pos <= limit
      ensures match P.ParseScheme(base, input[start..limit])
              case Err(e) => failure == Some(e)
              case Ok((s, rest)) => failure == None && scheme == Some(s) && input[pos..limit] == rest
    {
      hide P.SchemeDelimiter, EqualsIgnoreCase;
      pos := start;
      var schemeDelimiter := SchemeDelimiterOffset(input, pos, limit);
      ghost var t := input[pos..limit];
      if schemeDelimiter != -1 {
        if P.StartsIgnoreCase(input[pos..limit], "https:") {
          scheme := Some("https");
          assert t[6..] == input[pos + 6..limit];
          pos := pos + 6;
        } else if P.StartsIgnoreCase(input[pos..limit], "http:") {
          scheme := Some("http");
          assert t[5..] == input[pos + 5..limit];
          pos := pos + 5;
        } else {
          return Some(BadScheme), pos;
        }
      } else if base.Some? {
        scheme := Some(base.value.scheme);
      } else {
        return Some(NoScheme), pos;
      }
      failure := None;
    }

    method ParseTailText(input: string, start: nat, limit: nat)
      requires start <= limit <= |input| && encodedPathSegments != []
      modifies this`encodedPathSegments, this`encodedQueryNamesAndValues, this`encodedFragment
      ensures State() == P.ParseTail(old(State()), input[start..limit])
    {
      hide Canon, FirstOf, ResolvePath, Split;
      var pathEnd := DelimiterOffset(input, start, limit, "?#");
      ghost var rest, k := input[start..limit], pathEnd - start;
      SliceSlice(input, start, limit, 0, k);
      SliceSlice(input, start, limit, k, |rest|);
      P.TailParts(State(), rest, k, input[pathEnd..limit]);
      ResolvePathText(input, start, pathEnd);
      assert pathEnd < limit ==> input[pathEnd] == rest[k];
      ParseQueryAndFragment(input, pathEnd, limit);
    }

    method ParseQueryAndFragment(input: string, start: nat, limit: nat)
      requires start <= limit <= |input|
      requires start < limit ==> input[start] in "?#"
      modifies this`encodedQueryNamesAndValues, this`encodedFragment
      ensures var t := input[start..limit];
              var q := FirstOf(t, "#");
              && encodedQueryNamesAndValues == (if t != "" && t[0] == '?' then QueryOf(QueryMode(true), Some(t[1..q]))
                                                else old(encodedQueryNamesAndValues))
              && encodedFragment == (if q < |t| then Some(Canon(FragmentMode(true), t[q + 1..]))
                                     else old(encodedFragment))
    {
      hide Canon, FirstOf, Split;
      var pos := start;
      ghost var t := input[start..limit];
      ghost var q := FirstOf(t, "#");
      if pos < limit && input[pos] == '?' {
        var queryEnd := DelimiterOffset(input, pos, limit, "#");
        assert t[0] !in "#";
        SliceSlice(input, pos, limit, 1, q);
        var query := Canonicalize(input, pos + 1, queryEnd, QueryMode(true));
        var list := QueryStringToNamesAndValues(query);
        encodedQueryNamesAndValues := Some(list);
        pos := queryEnd;
      } else {
        HashFirst(t);
      }
      if pos < limit && input[pos] == '#' {
        SliceSlice(input, start, limit, q + 1, |t|);
        var fragment := Canonicalize(input, pos + 1, limit, FragmentMode(true));
        encodedFragment := Some(fragment);
      }
    }
  }

  /** User name, password and the two flags after the text in front of one '@'. */
  function UserInfoStep(text: string, username: string, password: string, hasUsername: bool, hasPassword: bool)
    : (r: (string, string, bool, bool))
  {
    if hasPassword then (username, password + "%40" + Canon(UserMode(true), text), hasUsername, true)
    else
      var c := FirstOf(text, ":");
      var user := Canon(UserMode(true), text[..c]);
      (if hasUsername then username + "%40" + user else user,
       if c < |text| then Canon(UserMode(true), text[c + 1..]) else password,
       true, c < |text|)
  }

  lemma AuthorityStep(s: string, username: string, password: string, hasUsername: bool, hasPassword: bool,
                      scheme: string, host: HostFn, k: nat)
    requires k == FirstOf(s, "@/\\?#")
    ensures P.ParseAuthority(s, username, password, hasUsername, hasPassword, scheme, host)
         == if k < |s| && s[k] == '@' then
              var (u, p, hu, hp) := UserInfoStep(s[..k], username, password, hasUsername, hasPassword);
              P.ParseAuthority(s[k + 1..], u, p, hu, hp, scheme, host)
            else
              match P.ParseHostPort(s[..k], scheme, host)
              case Err(e) => Err(e)
              case Ok((h, p)) => Ok(P.Authority(username, password, h, p, s[k..]))
  {
    hide Canon, FirstOf, P.ParseHostPort;
    var c := FirstOf(s[..k], ":");
    assert s[..k][..c] == s[..c];
    assert c < k ==> s[..k][c + 1..] == s[c + 1..k];
  }

  method SchemeDelimiterOffset(input: string, pos: nat, limit: nat) returns (r: int)
    requires pos <= limit <= |input|
    ensures var d := P.SchemeDelimiter(input[pos..limit]); r == if d == -1 then -1 else pos + d
  {
    hide P.SchemeScan, P.IsSchemeChar;
    if limit - pos < 2 {
      return -1;
    }
    ghost var s := input[pos..limit];
    var c0 := input[pos];
    if (c0 < 'a' || c0 > 'z') && (c0 < 'A' || c0 > 'Z') {
      return -1;
    }
    var i := pos + 1;
    while i < limit
      invariant pos + 1 <= i <= limit
      invariant P.SchemeScan(s, i - pos) == P.SchemeScan(s, 1)
    {
      ScanStep(s, i - pos);
      var c := input[i];
      if P.IsSchemeChar(c) {
      } else if c == ':' {
        return i;
      } else {
        return -1;
      }
      i := i + 1;
    }
    ScanStep(s, |s|);
    return -1;
  }

  lemma AddSegmentsStep(segs: seq<string>, text: string, offset: nat, end: nat, alreadyEncoded: bool)
    requires segs != [] && offset <= |text| && end == offset + FirstOf(text[offset..|text|], "/\\")
    ensures end <= |text|
    ensures AddSegments(segs, text[offset..], alreadyEncoded)
         == var pushed := Push(segs, text[offset..end], end < |text|, alreadyEncoded);
            if end < |text| then AddSegments(pushed, text[end + 1..], alreadyEncoded) else pushed
  {
    hide Push, FirstOf;
    var rest, k := text[offset..], end - offset;
    assert rest == text[offset..|text|] && rest[..k] == text[offset..end];
    assert k < |rest| ==> rest[k + 1..] == text[end + 1..];
  }

  lemma HashFirst(t: string)
    requires t != "" ==> t[0] == '#'
    ensures FirstOf(t, "#") == 0
  {
  }

  lemma Regroup(a: string, b: string, c: string, d: string, e: string)
    ensures a + b + c + d + e == a + (b + (c + (d + e)))
  {
    S.Assoc(a, b, c);
    S.Assoc(a, b + c, d);
    S.Assoc(a, b + c + d, e);
    S.Assoc(b, c, d);
    S.Assoc(b, c + d, e);
    S.Assoc(c, d, e);
  }

  lemma SliceSlice(s: string, from: nat, to: nat, i: nat, j: nat)
    requires from <= to <= |s| && i <= j <= to - from
    ensures s[from..to][i..j] == s[from + i..from + j]
  {
    var a, b := s[from..to][i..j], s[from + i..from + j];
    assert |a| == |b| && forall k :: 0 <= k < |a| ==> a[k] == b[k];
  }

  lemma ScanStep(s: string, i: nat)
    requires i <= |s|
    ensures P.SchemeScan(s, i) == if i == |s| then -1 else if P.IsSchemeChar(s[i]) then P.SchemeScan(s, i + 1)
                                  else if s[i] == ':' then i else -1
  {
  }

  method SlashCountAt(input: string, pos: nat, limit: nat) returns (n: nat)
    requires pos <= limit <= |input|
    ensures n == P.SlashCount(input[pos..limit]) && pos + n <= limit
  {
    hide P.SlashCount;
    n := 0;
    ghost var s := input[pos..limit];
    while pos + n < limit && (input[pos + n] == '\\' || input[pos + n] == '/')
      invariant pos + n <= limit
      invariant forall i :: 0 <= i < n ==> s[i] == '/' || s[i] == '\\'
    {
      assert s[n] == input[pos + n];
      n := n + 1;
    }
    assert n < |s| ==> s[n] == input[pos + n];
    var m: nat := P.SlashCount(s);
  }

  /** `portColonOffset`, with its inner loop over a bracketed address. */
  method PortColonOffset(input: string, pos: nat, limit: nat) returns (r: nat)
    requires pos <= limit <= |input|
    ensures pos <= r <= limit && r == pos + P.PortColon(input[pos..limit])
  {
    hide P.PortColon, FirstOf, P.Skip;
    var i := pos;
    while i < limit
      invariant pos <= i <= limit
      invariant i + P.PortColon(input[i..limit]) == pos + P.PortColon(input[pos..limit])
      decreases limit - i
    {
      PortColonStep(input, i, limit);
      if input[i] == '[' {
        i := DelimiterOffset(input, i + 1, limit, "]");
        if i == limit {
          i := i - 1;
        }
      } else if input[i] == ':' {
        return i;
      }
      i := i + 1;
    }
    assert input[limit..limit] == "";
    return limit;
  }

  lemma PortColonStep(input: string, i: nat, limit: nat)
    requires i < limit <= |input|
    ensures P.PortColon(input[i..limit])
         == if input[i] == ':' then 0
            else var n := P.Skip(input[i..limit]); n + P.PortColon(input[i + n..limit])
    ensures P.Skip(input[i..limit])
         == if input[i] != '[' then 1
            else var k := FirstOf(input[i + 1..limit], "]"); if i + 1 + k == limit then limit - i else k + 2
  {
    hide FirstOf;
    var s := input[i..limit];
    assert s[1..] == input[i + 1..limit];
    SliceSlice(input, i, limit, P.Skip(s), |s|);
  }
}
