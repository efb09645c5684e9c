/** Links that bring a scheme or an authority of their own. */
module UrlLinks {
  import opened Text
  import opened PercentCoding
  import opened UrlBuilder
  import opened UrlCanonical
  import opened UrlShapes
  import opened HttpUrls
  import opened UrlParser
  import opened UrlHistory
  import opened Resolution

  predicate WebScheme(s: string) { s == "http" || s == "https" }

  // ---------------------------------------------------------------- schemes

  predicate Letter(c: char) { 'a' <= Lower(c) <= 'z' }

  /** Section 3.1 of RFC 3986: a letter, then letters, digits, plus signs, hyphens and dots, then a colon. */
  predicate SchemeEndsAt(t: string, k: int)
  {
    && 1 <= k < |t| && t[k] == ':' && Letter(t[0])
    && forall i :: 1 <= i < k ==> Letter(t[i]) || t[i] in "0123456789+-."
  }

  /** The scheme is found exactly where that grammar has one. */
  lemma SchemeGrammar(t: string, k: nat)
    ensures SchemeDelimiter(t) == k <==> SchemeEndsAt(t, k)
  {
    if SchemeEndsAt(t, k) {
      forall i | 1 <= i < k
        ensures IsSchemeChar(t[i])
      {
        SchemeCharIs(t[i]);
      }
      ScanFinds(t, 1, k);
    } else if SchemeDelimiter(t) == k {
      forall i | 1 <= i < k
        ensures Letter(t[i]) || t[i] in "0123456789+-."
      {
        SchemeCharIs(t[i]);
      }
    }
  }

  lemma SchemeCharIs(c: char)
    ensures IsSchemeChar(c) <==> Letter(c) || c in "0123456789+-."
  {
  }

  lemma {:induction false} ScanFinds(s: string, i: nat, k: nat)
    requires i <= k < |s| && s[k] == ':' && forall j :: i <= j < k ==> IsSchemeChar(s[j])
    ensures SchemeScan(s, i) == k
    decreases k - i
  {
    if i < k {
      ScanFinds(s, i + 1, k);
    }
  }

  /** A text with another scheme than http and https is refused, whatever the base. */
  lemma OtherSchemes(base: Option<HttpUrl>, link: string, k: nat, host: HostFn)
    requires base.Some? ==> InRange(base.value) && SegmentParts(base.value) != []
    requires SchemeEndsAt(TrimBoth(link), k)
    requires !EqualsIgnoreCase(TrimBoth(link)[..k], "http") && !EqualsIgnoreCase(TrimBoth(link)[..k], "https")
    ensures Parse(base, link, host) == Err(BadScheme)
  {
    hide TrimBoth, InRange, SegmentParts, ParseTail, ParseAuthority, Inherit, SlashCount, SchemeDelimiter, ParseScheme;
    SchemeGrammar(TrimBoth(link), k);
    SchemeAt(base, TrimBoth(link));
  }

  /** What the text in front of the first colon decides. */
  lemma SchemeAt(base: Option<HttpUrl>, t: string)
    requires SchemeDelimiter(t) != -1
    ensures var k := SchemeDelimiter(t);
            ParseScheme(base, t) == if EqualsIgnoreCase(t[..k], "https") then Ok(("https", t[k + 1..]))
                                    else if EqualsIgnoreCase(t[..k], "http") then Ok(("http", t[k + 1..]))
                                    else Err(BadScheme)
  {
    hide SchemeScan;
    ColonAfter(t, "https");
    ColonAfter(t, "http");
  }

  lemma ColonAfter(t: string, name: string)
    requires SchemeDelimiter(t) != -1 && WebScheme(name)
    ensures StartsIgnoreCase(t, name + ":") <==> EqualsIgnoreCase(t[..SchemeDelimiter(t)], name)
    ensures StartsIgnoreCase(t, name + ":") ==> SchemeDelimiter(t) == |name|
  {
    hide SchemeScan;
    var k, p := SchemeDelimiter(t), name + ":";
    if StartsIgnoreCase(t, p) {
      assert SameLetter(t[..|p|][|name|], p[|name|]);
      assert forall i :: 0 <= i < |name| ==> SameLetter(t[..|p|][i], p[i]) && p[i] == name[i];
      assert k == |name|;
    }
  }

  /** Whether the link, without the blanks around it, begins with a scheme and a colon. */
  predicate NamesScheme(link: string) { SchemeDelimiter(TrimBoth(link)) != -1 }

  function SchemeName(link: string): (r: string)
    requires NamesScheme(link)
  {
    TrimBoth(link)[..SchemeDelimiter(TrimBoth(link))]
  }

  function BehindScheme(link: string): (r: string)
    requires NamesScheme(link)
  {
    TrimBoth(link)[SchemeDelimiter(TrimBoth(link)) + 1..]
  }

  /** The link names `scheme`, in any letter case, and no authority follows. */
  predicate Repeats(scheme: string, link: string)
  {
    NamesScheme(link) && EqualsIgnoreCase(SchemeName(link), scheme) && SlashCount(BehindScheme(link)) < 2
  }

  // ---------------------------------------------------------------- own authority

  /** A link with two or more slashes behind its scheme, or with another scheme than the base's, is parsed
      as if there were no base. */
  lemma OwnAuthority(u: HttpUrl, link: string, host: HostFn)
    requires InRange(u) && SegmentParts(u) != [] && WebScheme(u.scheme)
    requires NamesScheme(link)
    requires SlashCount(BehindScheme(link)) >= 2 || !EqualsIgnoreCase(SchemeName(link), u.scheme)
    ensures Parse(Some(u), link, host) == Parse(None, link, host)
  {
    hide TrimBoth, InRange, SegmentParts, ParseTail, ParseAuthority, Inherit, SlashCount, SchemeDelimiter, ParseScheme;
    var t := TrimBoth(link);
    SchemeAt(Some(u), t);
    SchemeAt(None, t);
  }

  /** A link that starts with two or more slashes takes nothing but the scheme from the base. */
  lemma NetworkPath(u: HttpUrl, link: string, host: HostFn)
    requires InRange(u) && SegmentParts(u) != [] && WebScheme(u.scheme)
    requires !NamesScheme(link) && SlashCount(TrimBoth(link)) >= 2
    ensures Parse(Some(u), link, host) == Parse(None, u.scheme + ":" + TrimBoth(link), host)
  {
    hide InRange, SegmentParts, ParseTail, ParseAuthority, Inherit, SlashCount, TrimBoth, ParseScheme;
    var t := TrimBoth(link);
    var full := u.scheme + ":" + t;
    SchemeInFront(u.scheme, t);
    TrimmedTail(u.scheme, link);
    assert ParseScheme(Some(u), t) == Ok((u.scheme, t)) by { NoSchemeGiven(u, t); }
  }

  lemma NoSchemeGiven(u: HttpUrl, t: string)
    requires SchemeDelimiter(t) == -1
    ensures ParseScheme(Some(u), t) == Ok((u.scheme, t))
  {
  }

  lemma SchemeInFront(scheme: string, t: string)
    requires WebScheme(scheme)
    ensures ParseScheme(None, scheme + ":" + t) == Ok((scheme, t))
  {
    var s := scheme + ":" + t;
    assert s[|scheme| + 1..] == t && s[..|scheme|] == scheme;
    var k := |scheme|;
    assert SchemeScan(s, 4) == k && SchemeScan(s, 3) == k && SchemeScan(s, 2) == k && SchemeScan(s, 1) == k;
    assert EqualsIgnoreCase(scheme, scheme);
    SchemeAt(None, s);
  }

  lemma TrimmedTail(scheme: string, link: string)
    requires WebScheme(scheme)
    ensures TrimBoth(scheme + ":" + TrimBoth(link)) == scheme + ":" + TrimBoth(link)
  {
    hide TrimLeft, TrimRight;
    var t := TrimBoth(link);
    NoBlankInFront(scheme + ":" + t);
    TrimTwice(TrimLeft(link));
    TrimRightAppend(scheme + ":", t);
  }

  lemma TrimTwice(s: string)
    ensures TrimRight(TrimRight(s)) == TrimRight(s)
  {
  }

  lemma SlashesTrimmed(s: string)
    requires s != "" && TrimRight(s) == s
    ensures TrimBoth("//" + s) == "//" + s
  {
    NoBlankInFront("//" + s);
    TrimRightAppend("//", s);
  }

  lemma NoBlankInFront(s: string)
    requires s != "" && !IsSpace(s[0])
    ensures TrimLeft(s) == s
  {
  }

  // ---------------------------------------------------------------- same scheme, no authority

  /** A link that repeats the base's scheme, with fewer than two slashes behind it, is the relative
      reference behind the scheme: it gives that reference's target in section 5.2.2 of RFC 3986. */
  lemma SameSchemeResolves(b: Builder, link: string, host: HostFn)
    requires Buildable(b, host) && Repeats(b.scheme.value, link)
    requires BehindScheme(link) != "" ==> !IsBreak(BehindScheme(link)[0])
    ensures var r := Parse(BaseUrl(Some(b), host), link, host);
            r.Ok? && IsTarget(b, BehindScheme(link), r.value)
  {
    hide TrimBoth, IsTarget, ParseTail, Inherit, InRange, SegmentParts, SchemeDelimiter, SlashCount, ParseScheme,
      ComponentsOk, SegmentOk, Stable, HostShape;
    SchemeAt(Some(Build(b).value), TrimBoth(link));
    TailIsTarget(b, BehindScheme(link), host);
    InheritOk(b, BehindScheme(link), host);
    hide Build;
  }

  /** Where the text behind the repeated scheme is a link by itself, without scheme and leading blanks, both
      links are the same. */
  lemma SameSchemeDropped(u: HttpUrl, link: string, host: HostFn)
    requires InRange(u) && SegmentParts(u) != [] && WebScheme(u.scheme) && Repeats(u.scheme, link)
    requires SchemeDelimiter(BehindScheme(link)) == -1 && TrimBoth(BehindScheme(link)) == BehindScheme(link)
    ensures Parse(Some(u), link, host) == Parse(Some(u), BehindScheme(link), host)
  {
    hide InRange, SegmentParts, ParseTail, ParseAuthority, Inherit, SlashCount, ParseScheme, SchemeDelimiter, TrimBoth;
    SchemeAt(Some(u), TrimBoth(link));
    NoSchemeGiven(u, BehindScheme(link));
  }

  /** Elsewhere they can differ: behind the repeated scheme a colon is path text, and not the end of a scheme. */
  lemma SchemeBehindScheme(b: Builder, link: string, host: HostFn)
    requires Buildable(b, host) && Repeats(b.scheme.value, link)
    requires TrimBoth(BehindScheme(link)) == BehindScheme(link) && NamesScheme(BehindScheme(link))
    requires !EqualsIgnoreCase(SchemeName(BehindScheme(link)), "http")
    requires !EqualsIgnoreCase(SchemeName(BehindScheme(link)), "https")
    ensures Parse(BaseUrl(Some(b), host), link, host).Ok?
    ensures Parse(BaseUrl(Some(b), host), BehindScheme(link), host) == Err(BadScheme)
  {
    hide TrimBoth, IsTarget, ParseTail, Inherit, InRange, SegmentParts, ParseScheme, Buildable,
      EqualsIgnoreCase, BaseUrl;
    var rest := BehindScheme(link);
    assert IsLetter(rest[0]);
    hide SchemeDelimiter, SlashCount;
    SameSchemeResolves(b, link, host);
    SchemeAt(BaseUrl(Some(b), host), rest);
  }
}
