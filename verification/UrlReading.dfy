/** What `parse` reads in an absolute URL, in terms of the decoded components: everything before the last at-sign
    of the authority is user info, cut at its first colon; then host, path, query and fragment. */
module UrlReading {
  import opened Text
  import opened Utf8
  import opened PercentCoding
  import opened CanonMeaning
  import opened QueryString
  import opened UrlBuilder
  import opened UrlCanonical
  import opened UrlShapes
  import opened HttpUrls
  import opened UrlParser
  import opened BuilderMeaning
  import opened UrlLinks

  // ---------------------------------------------------------------- decoding pieces

  /** Where no hex digit follows, decoding works piece by piece. */
  lemma {:induction false} DecodedConcat(a: string, t: string, p: bool)
    requires t != "" ==> !IsHex(t[0])
    ensures DecodedBytes(a + t, p) == DecodedBytes(a, p) + DecodedBytes(t, p)
    decreases |a|
  {
    hide HexValue, EncodeChar, DecodedBytes;
    NoText(p);
    if a == "" {
      assert a + t == t;
    } else {
      var s := a + t;
      SameEscape(a, t);
      if PercentEncoded(a) {
        assert s[3..] == a[3..] + t && s[..3] == a[..3];
        assert a == a[..3] + a[3..] && s == a[..3] + s[3..];
        EscapeHead(a, a[3..], p);
        EscapeHead(a, s[3..], p);
        DecodedConcat(a[3..], t, p);
      } else {
        assert s[1..] == a[1..] + t;
        DecodedPlain(a, p);
        DecodedPlain(s, p);
        DecodedConcat(a[1..], t, p);
      }
    }
  }

  lemma SameEscape(a: string, t: string)
    requires a != "" && (t != "" ==> !IsHex(t[0]))
    ensures PercentEncoded(a + t) <==> PercentEncoded(a)
  {
  }

  lemma NoText(p: bool)
    ensures DecodedBytes("", p) == []
  {
  }

  lemma AtSign(s: string)
    ensures !IsHex('@') && !IsHex('%')
    ensures DecodedBytes("@" + s, false) == [64] + DecodedBytes(s, false)
    ensures DecodedBytes("%40" + s, false) == [64] + DecodedBytes(s, false)
  {
    assert ("@" + s)[1..] == s && ("%40" + s)[3..] == s;
    DecodedPlain("@" + s, false);
  }

  /** Joining with "%40" is joining with an at-sign. */
  lemma JoinedAt(a: string, b: string)
    ensures DecodedBytes(a + "%40" + b, false) == DecodedBytes(a, false) + [64] + DecodedBytes(b, false)
    ensures DecodedBytes(a + "@" + b, false) == DecodedBytes(a, false) + [64] + DecodedBytes(b, false)
  {
    hide DecodedBytes;
    AtSign(b);
    DecodedConcat(a, "%40" + b, false);
    DecodedConcat(a, "@" + b, false);
    assert a + "%40" + b == a + ("%40" + b) && a + "@" + b == a + ("@" + b);
  }

  lemma {:induction false} UnbrokenConcat(a: string, b: string)
    ensures Unbroken(a + b) == Unbroken(a) + Unbroken(b)
  {
    if a == "" {
      assert a + b == b;
    } else {
      assert (a + b)[1..] == a[1..] + b;
      UnbrokenConcat(a[1..], b);
    }
  }

  /** The bytes that user info stands for. */
  function InfoBytes(s: string): (r: seq<Byte>) { DecodedBytes(Unbroken(s), false) }

  lemma InfoJoined(a: string, b: string)
    ensures InfoBytes(a + "@" + b) == InfoBytes(a) + [64] + InfoBytes(b)
  {
    hide DecodedBytes, Unbroken;
    UnbrokenConcat(a + "@", b);
    UnbrokenConcat(a, "@");
    AtAlone();
    JoinedAt(Unbroken(a), Unbroken(b));
  }

  lemma AtAlone()
    ensures Unbroken("@") == "@"
  {
  }

  lemma CanonInfo(s: string)
    ensures DecodedBytes(Canon(UserMode(true), s), false) == InfoBytes(s)
  {
    hide DecodedBytes, Unbroken, Canon, PlainSet, BrokenEscape;
    PlainSets();
    EncodedMeaning(UserMode(true), s);
  }

  // ---------------------------------------------------------------- user info

  function Colon(info: string): (k: nat)
    ensures k <= |info|
  {
    FirstOf(info, ":")
  }

  /** What the parser has after user info: its user name and password so far stand for these bytes. */
  predicate InfoRead(info: string, username: string, password: string, hasUsername: bool, hasPassword: bool,
                     u: string, p: string, hasP: bool)
  {
    var k := Colon(info);
    if hasPassword then
      hasP && u == username && DecodedBytes(p, false) == DecodedBytes(password, false) + [64] + InfoBytes(info)
    else
      && DecodedBytes(u, false)
         == (if hasUsername then DecodedBytes(username, false) + [64] else []) + InfoBytes(info[..k])
      && hasP == (k < |info|)
      && if k < |info| then DecodedBytes(p, false) == InfoBytes(info[k + 1..]) else p == password
  }

  /** One piece of user info, up to an at-sign. */
  lemma OnePiece(piece: string, rest: string, username: string, password: string,
                 hasUsername: bool, hasPassword: bool, scheme: string, host: HostFn)
    returns (u: string, p: string, hasP: bool)
    requires Free(piece, "@/\\?#") && (!hasUsername ==> username == "" && !hasPassword)
    ensures InfoRead(piece, username, password, hasUsername, hasPassword, u, p, hasP)
    ensures ParseAuthority(piece + "@" + rest, username, password, hasUsername, hasPassword, scheme, host)
         == ParseAuthority(rest, u, p, true, hasP, scheme, host)
  {
    hide DecodedBytes, Unbroken, Canon, FirstOf, ParseHostPort;
    var s := piece + "@" + rest;
    PieceEnds(piece, rest);
    assert s[..|piece|] == piece && s[|piece| + 1..] == rest;
    if hasPassword {
      u, p, hasP := username, password + "%40" + Canon(UserMode(true), piece), true;
      CanonInfo(piece);
      JoinedAt(password, Canon(UserMode(true), piece));
    } else {
      var k := Colon(piece);
      var user := Canon(UserMode(true), piece[..k]);
      assert s[..k] == piece[..k];
      CanonInfo(piece[..k]);
      JoinedAt(username, user);
      u := if hasUsername then username + "%40" + user else user;
      hasP := k < |piece|;
      p := if hasP then Canon(UserMode(true), piece[k + 1..]) else password;
      if hasP {
        assert s[k + 1..|piece|] == piece[k + 1..];
        CanonInfo(piece[k + 1..]);
      }
      assert [] + InfoBytes(piece[..k]) == InfoBytes(piece[..k]);
    }
  }

  lemma PieceEnds(piece: string, rest: string)
    requires Free(piece, "@/\\?#")
    ensures FirstOf(piece + "@" + rest, "@/\\?#") == |piece|
  {
    var s := piece + "@" + rest;
    assert s[|piece|] == '@' && forall i :: 0 <= i < |piece| ==> s[i] == piece[i];
  }

  /** All user info, up to the last at-sign: what two readings in a row make is one reading of the whole. */
  lemma InfoChained(a: string, b: string, username: string, password: string, hasUsername: bool, hasPassword: bool,
                    u: string, p: string, hasP: bool, u': string, p': string, hasP': bool)
    requires InfoRead(a, username, password, hasUsername, hasPassword, u, p, hasP)
    requires InfoRead(b, u, p, true, hasP, u', p', hasP')
    ensures InfoRead(a + "@" + b, username, password, hasUsername, hasPassword, u', p', hasP')
  {
    hide InfoBytes, DecodedBytes, FirstOf;
    var s, k := a + "@" + b, Colon(a);
    ColonOfJoined(a, b);
    if hasPassword {
      InfoJoined(a, b);
    } else if k < |a| {
      assert s[..k] == a[..k] && s[k + 1..] == a[k + 1..] + "@" + b;
      InfoJoined(a[k + 1..], b);
    } else {
      var j := Colon(b);
      assert a[..k] == a && s[..|a| + 1 + j] == a + "@" + b[..j];
      InfoJoined(a, b[..j]);
      assert j < |b| ==> s[|a| + 1 + j + 1..] == b[j + 1..];
    }
  }

  lemma ColonOfJoined(a: string, b: string)
    ensures Colon(a + "@" + b) == if Colon(a) < |a| then Colon(a) else |a| + 1 + Colon(b)
  {
    var s := a + "@" + b;
    assert forall i :: 0 <= i < |a| ==> s[i] == a[i];
    assert s[|a|] == '@' && forall i :: 0 <= i < |b| ==> s[|a| + 1 + i] == b[i];
  }

  lemma {:induction false} ReadInfo(info: string, rest: string, username: string, password: string,
                                    hasUsername: bool, hasPassword: bool, scheme: string, host: HostFn)
    returns (u: string, p: string, hasP: bool)
    requires Free(info, "/\\?#") && (!hasUsername ==> username == "" && !hasPassword)
    ensures InfoRead(info, username, password, hasUsername, hasPassword, u, p, hasP)
    ensures ParseAuthority(info + "@" + rest, username, password, hasUsername, hasPassword, scheme, host)
         == ParseAuthority(rest, u, p, true, hasP, scheme, host)
    decreases |info|
  {
    hide InfoRead, ParseAuthority;
    var k := FirstOf(info, "@");
    PieceFree(info, k);
    if k == |info| {
      assert info[..k] == info;
      u, p, hasP := OnePiece(info, rest, username, password, hasUsername, hasPassword, scheme, host);
    } else {
      var a, b := info[..k], info[k + 1..];
      assert info == a + "@" + b;
      assert info + "@" + rest == a + "@" + (b + "@" + rest);
      var u1, p1, hasP1 := OnePiece(a, b + "@" + rest, username, password, hasUsername, hasPassword, scheme, host);
      u, p, hasP := ReadInfo(b, rest, u1, p1, true, hasP1, scheme, host);
      InfoChained(a, b, username, password, hasUsername, hasPassword, u1, p1, hasP1, u, p, hasP);
    }
  }

  lemma PieceFree(info: string, k: nat)
    requires Free(info, "/\\?#") && k == FirstOf(info, "@")
    ensures Free(info[..k], "@/\\?#") && (k < |info| ==> Free(info[k + 1..], "/\\?#") && info[k] == '@')
  {
  }

  // ---------------------------------------------------------------- path, query and fragment

  /** What the text behind the authority says. */
  function TailView(v: View, tail: string): (r: View)
  {
    var k := FirstOf(tail, "?#");
    var rest := tail[k..];
    var q := FirstOf(rest, "#");
    v.(segments := if k == 0 then [""] else PlainPushAll([""], tail[1..k], true),
       query := if rest != "" && rest[0] == '?' then Some(ClearAll(Split(rest[1..q]))) else None,
       fragment := if q < |rest| then Some(Clear(rest[q + 1..], false)) else None)
  }

  lemma TailRead(b: Builder, tail: string)
    requires b.segments == [""] && b.query.None? && b.fragment.None?
    requires tail == "" || tail[0] in "/\\?#"
    ensures ViewOf(ParseTail(b, tail)) == TailView(ViewOf(b), tail)
  {
    hide FirstOf, Canon, ResolvePath, QueryOf, PlainPushAll, Split, Clear, ClearAll, PercentDecoded, ParseTail, Texts,
      QueryView, DecodeOption;
    var k := FirstOf(tail, "?#");
    var rest := tail[k..];
    TailParts(b, tail, k, rest);
    PathRead(tail, k);
    QueryRead(rest, FirstOf(rest, "#"));
    FragmentRead(rest, FirstOf(rest, "#"));
  }

  lemma QueryRead(rest: string, q: nat)
    requires q <= |rest| && (rest != "" && rest[0] == '?' ==> q >= 1)
    ensures QueryView(if rest != "" && rest[0] == '?' then QueryOf(QueryMode(true), Some(rest[1..q])) else None)
         == if rest != "" && rest[0] == '?' then Some(ClearAll(Split(rest[1..q]))) else None
  {
    hide Canon, QueryOf, Split, ClearAll, PercentDecoded, DecodeList;
    if rest != "" && rest[0] == '?' {
      QueryMeaning(true, rest[1..q]);
      QueryOfSome(rest[1..q]);
    }
  }

  lemma FragmentRead(rest: string, q: nat)
    requires q <= |rest|
    ensures DecodeOption(if q < |rest| then Some(Canon(FragmentMode(true), rest[q + 1..])) else None, false)
         == if q < |rest| then Some(Clear(rest[q + 1..], false)) else None
  {
    hide Canon, Clear, PercentDecoded, PlainSet;
    if q < |rest| {
      ComponentSets();
      CanonMeans(FragmentMode(true), rest[q + 1..]);
    }
  }

  lemma QueryOfSome(q: string)
    ensures QueryOf(QueryMode(true), Some(q)) == Some(Split(Canon(QueryMode(true), q)))
  {
  }

  lemma PathRead(tail: string, k: nat)
    requires (tail == "" || tail[0] in "/\\?#") && k == FirstOf(tail, "?#")
    ensures Texts(ResolvePath([""], tail[..k])) == if k == 0 then [""] else PlainPushAll([""], tail[1..k], true)
  {
    hide PlainPushAll, PercentDecoded, PushAll, AddSegments;
    NothingDecoded();
    assert Texts([""]) == [""];
    if k > 0 {
      var path := tail[..k];
      assert path[0] == tail[0] && path[1..] == tail[1..k];
      assert tail[0] !in "?#";
      PushAllAdds([""], path[1..]);
      AddSegmentsMeaning([""], path[1..], true);
    }
  }

  // ---------------------------------------------------------------- the whole URL

  function UserOf(info: Option<string>): (r: string)
  {
    if info.None? then "" else Clear(info.value[..Colon(info.value)], false)
  }

  function PasswordOf(info: Option<string>): (r: string)
  {
    if info.None? || Colon(info.value) == |info.value| then "" else Clear(info.value[Colon(info.value) + 1..], false)
  }

  function InfoText(info: Option<string>): (r: string) { if info.None? then "" else info.value + "@" }

  lemma NothingClear()
    ensures PercentDecoded("", false) == "" && InfoBytes("") == []
  {
  }

  /** What may stand between host and path. */
  datatype Port = NoPort | EmptyPort | PortNumber(n: nat)

  function PortPart(port: Port): (r: string)
  {
    match port
    case NoPort => ""
    case EmptyPort => ":"
    case PortNumber(n) => ":" + PrintNat(n)
  }

  /** The port of the URL: 80 or 443, by the scheme, if the text does not say. */
  function PortOf(port: Port, scheme: string): (n: int)
  {
    if port.PortNumber? then port.n else if scheme == "http" then 80 else 443
  }

  predicate PortRefused(port: Port) { port.PortNumber? && !(1 <= port.n <= 65535) }

  lemma AuthorityRead(scheme: string, info: Option<string>, name: string, port: Port, tail: string, host: HostFn)
    requires WebScheme(scheme) && Free(name, "@/\\?#:[") && (tail == "" || tail[0] in "/\\?#")
    requires info.Some? ==> Free(info.value, "/\\?#")
    ensures var text := InfoText(info) + (name + PortPart(port) + tail);
            var r := ParseAuthority(text, "", "", false, false, scheme, host);
            var h := host(PercentDecoded(name, false));
            if PortRefused(port) then r == Err(BadPort)
            else if h.None? then r == Err(BadHost)
            else
              && r.Ok? && r.value.host == h.value && r.value.rest == tail && r.value.port == PortOf(port, scheme)
              && PercentDecoded(r.value.username, false) == UserOf(info)
              && PercentDecoded(r.value.password, false) == PasswordOf(info)
  {
    hide ParseAuthority, DecodedBytes, Unbroken, FirstOf, Decode, WebScheme, Free, PortPart, PortOf, PortRefused;
    NothingClear();
    var rest := name + PortPart(port) + tail;
    if info.None? {
      assert "" + rest == rest;
      AuthorityWith(scheme, name, port, tail, "", "", false, false, host);
    } else {
      var i := info.value;
      assert InfoText(info) + rest == i + "@" + rest;
      var u, p, hasP := ReadInfo(i, rest, "", "", false, false, scheme, host);
      AuthorityWith(scheme, name, port, tail, u, p, true, hasP, host);
      assert [] + InfoBytes(i[..Colon(i)]) == InfoBytes(i[..Colon(i)]);
    }
  }

  lemma PortFree(port: Port)
    ensures Free(PortPart(port), "@/\\?#") && (PortPart(port) != "" ==> PortPart(port)[0] == ':')
  {
    if port.PortNumber? {
      var digits := PrintNat(port.n);
      assert forall i :: 0 <= i < |digits| ==> IsDigit(digits[i]);
      hide PrintNat;
    }
  }

  lemma PortRead(n: nat)
    ensures ParsePort(PrintNat(n)) == if 1 <= n <= 65535 then n else -1
  {
    hide PrintNat, Canon;
    DigitsStable(PrintNat(n));
    ParsePrint(n);
  }

  lemma HostPortRead(scheme: string, name: string, port: Port, host: HostFn)
    requires WebScheme(scheme) && Free(name, "@/\\?#:[")
    ensures var h := host(PercentDecoded(name, false));
            ParseHostPort(name + PortPart(port), scheme, host)
            == if PortRefused(port) then Err(BadPort) else if h.None? then Err(BadHost)
               else Ok((h.value, PortOf(port, scheme)))
  {
    hide PortColon, PercentDecoded, ParsePort, PrintNat;
    PortFree(port);
    PortColonPlain(name, PortPart(port));
    hide Free;
    var s := name + PortPart(port);
    assert s[..|name|] == name;
    if port.PortNumber? {
      assert s[|name| + 1..] == PrintNat(port.n);
      PortRead(port.n);
    }
  }

  /** Host, port and end of the authority, behind user info. */
  lemma AuthorityWith(scheme: string, name: string, port: Port, tail: string, username: string, password: string,
                      hasUsername: bool, hasPassword: bool, host: HostFn)
    requires WebScheme(scheme) && Free(name, "@/\\?#:[") && (tail == "" || tail[0] in "/\\?#")
    ensures var h := host(PercentDecoded(name, false));
            ParseAuthority(name + PortPart(port) + tail, username, password, hasUsername, hasPassword, scheme, host)
            == if PortRefused(port) then Err(BadPort) else if h.None? then Err(BadHost)
               else Ok(Authority(username, password, h.value, PortOf(port, scheme), tail))
  {
    HostPortRead(scheme, name, port, host);
    hide PercentDecoded, ParseHostPort, PortPart, PortOf, PortRefused;
    PortFree(port);
    var front := name + PortPart(port);
    FrontEnds(front, tail);
    hide Free, FirstOf;
    var s := front + tail;
    assert s[..|front|] == front && s[|front|..] == tail;
    assert |front| < |s| ==> s[|front|] == tail[0];
  }

  lemma FrontEnds(front: string, tail: string)
    requires Free(front, "@/\\?#") && (tail == "" || tail[0] in "/\\?#")
    ensures FirstOf(front + tail, "@/\\?#") == |front|
  {
    var s := front + tail;
    assert forall i :: 0 <= i < |front| ==> s[i] == front[i];
    assert tail != "" ==> s[|front|] == tail[0];
  }

  /** For every absolute URL, with or without user info and port: it is refused exactly if its port or its host is,
      and otherwise the components that `parse` gives mean what the pieces of the text mean. */
  lemma UrlRead(scheme: string, info: Option<string>, name: string, port: Port, tail: string, host: HostFn)
    requires WebScheme(scheme) && Free(name, "@/\\?#:[") && (tail == "" || tail[0] in "/\\?#")
    requires info.Some? ==> Free(info.value, "/\\?#")
    requires name != "" && TrimRight(name + PortPart(port) + tail) == name + PortPart(port) + tail
    ensures var r := Parse(None, scheme + ":" + ("//" + (InfoText(info) + (name + PortPart(port) + tail))), host);
            var h := host(PercentDecoded(name, false));
            if PortRefused(port) then r == Err(BadPort)
            else if h.None? then r == Err(BadHost)
            else
              r.Ok? && ViewOf(r.value) == TailView(View(Some(scheme), UserOf(info), PasswordOf(info), h,
                                                        PortOf(port, scheme), [""], None, None), tail)
  {
    hide TrimRight, TrimBoth, ParseScheme, SlashCount, PercentDecoded, ParseAuthority, Free, ResolvePath, Canon,
      QueryOf, FirstOf, WebScheme, InRange, SegmentParts, Inherit, TailView, ParseTail, UserOf, PasswordOf, PortPart,
      PortOf, PortRefused;
    var text := InfoText(info) + (name + PortPart(port) + tail);
    assert name + PortPart(port) + tail == name + (PortPart(port) + tail);
    NotSlashed(info, name, PortPart(port) + tail);
    SlashesTrimmed(text);
    TrimmedTail(scheme, "//" + text);
    SchemeInFront(scheme, "//" + text);
    TwoSlashes(text);
    AuthorityRead(scheme, info, name, port, tail, host);
    if !PortRefused(port) && host(PercentDecoded(name, false)).Some? {
      var a := ParseAuthority(text, "", "", false, false, scheme, host).value;
      var b := FRESH.(scheme := Some(scheme), username := a.username, password := a.password,
                      host := Some(a.host), port := a.port);
      TailRead(b, tail);
      NothingDecoded();
      assert Texts([""]) == [""];
    }
  }

  lemma NotSlashed(info: Option<string>, name: string, rest: string)
    requires Free(name, "@/\\?#:[") && name != "" && TrimRight(name + rest) == name + rest
    requires info.Some? ==> Free(info.value, "/\\?#")
    ensures var text := InfoText(info) + (name + rest);
            text != "" && text[0] != '/' && text[0] != '\\' && TrimRight(text) == text
  {
    var text := InfoText(info) + (name + rest);
    if info.Some? {
      assert text[0] == if info.value == "" then '@' else info.value[0];
      TrimRightAppend(InfoText(info), name + rest);
    } else {
      assert text == name + rest && text[0] == name[0];
    }
  }
}
