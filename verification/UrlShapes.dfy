/** Which delimiters can occur in which part of a printed URL. */
module UrlShapes {
  import opened Text
  import opened PercentCoding
  import opened QueryString
  import opened UrlBuilder
  import opened UrlCanonical

  /** The first delimiter of a text whose front has none. */
  lemma FirstOfConcat(a: string, b: string, delims: string)
    requires Free(a, delims)
    ensures FirstOf(a + b, delims) == |a| + FirstOf(b, delims)
  {
    var k := FirstOf(b, delims);
    assert forall i :: 0 <= i < |a| ==> (a + b)[i] == a[i];
    assert forall i :: |a| <= i < |a + b| ==> (a + b)[i] == b[i - |a|];
    assert forall i :: 0 <= i < |a| + k ==> (a + b)[i] !in delims;
    assert k < |b| ==> (a + b)[|a| + k] in delims;
  }

  lemma Assoc(a: string, b: string, c: string)
    ensures (a + b) + c == a + (b + c)
  {
  }

  /** A piece that ends at the first of some delimiters can be cut out again. */
  lemma CutOut(a: string, piece: string, rest: string, delims: string)
    requires Free(piece, delims) && (rest != "" ==> rest[0] in delims)
    ensures var s := a + (piece + rest);
            && s[|a|..] == piece + rest
            && FirstOf(s[|a|..], delims) == |piece|
            && s[|a|..|a| + |piece|] == piece
  {
    var s := a + (piece + rest);
    assert s[|a|..] == piece + rest;
    FirstOfConcat(piece, rest, delims);
    assert s[|a|..|a| + |piece|] == piece;
  }

  lemma FreeConcat(a: string, b: string, delims: string)
    requires Free(a, delims) && Free(b, delims)
    ensures Free(a + b, delims)
  {
  }

  lemma FreeFewer(a: string, some: string, all: string)
    requires Free(a, all) && forall i :: 0 <= i < |some| ==> some[i] in all
    ensures Free(a, some)
  {
  }

  lemma StableFree(m: Mode, s: string, chars: string)
    requires Stable(m, s)
    requires forall i :: 0 <= i < |chars| ==> chars[i] in m.encodeSet && chars[i] != '+'
    ensures Free(s, chars)
  {
  }

  lemma UserFree(s: string)
    requires Stable(UserMode(true), s)
    ensures Free(s, ":@/\\?#")
  {
  }

  lemma SegmentFree(s: string)
    requires SegmentOk(s)
    ensures Free(s, "/\\?#")
  {
  }

  lemma PathTextUnfold(segs: seq<string>)
    requires segs != []
    ensures PathText(segs) == "/" + segs[0] + PathText(segs[1..])
  {
  }

  lemma PathTextEmpty()
    ensures PathText([]) == ""
  {
  }

  lemma {:induction false} PathFree(segs: seq<string>)
    requires forall i :: 0 <= i < |segs| ==> SegmentOk(segs[i])
    ensures Free(PathText(segs), "?#\\") && Stable(PathMode(true), PathText([]))
    ensures segs != [] ==> PathText(segs) != "" && PathText(segs)[0] == '/'
  {
    hide SegmentOk;
    if segs != [] {
      SegmentFree(segs[0]);
      FreeFewer(segs[0], "?#\\", "/\\?#");
      PathFree(segs[1..]);
      FreeConcat("/", segs[0], "?#\\");
      FreeConcat("/" + segs[0], PathText(segs[1..]), "?#\\");
    }
  }

  lemma JoinPairStable(name: string, value: Option<string>)
    requires ComponentOk(Some(name), true) && ComponentOk(value, false)
    ensures Stable(QueryMode(true), JoinPair(name, value))
  {
  }

  lemma {:induction false} JoinStable(list: NamesAndValues)
    requires Paired(list) && ComponentsOk(list)
    ensures Stable(QueryMode(true), Join(list))
    decreases |list|
  {
    if list != [] {
      hide ComponentOk, Stable, StableChar, Join, JoinPair;
      JoinCons(list);
      assert ComponentOk(list[0], true) && ComponentOk(list[1], false);
      JoinPairStable(list[0].value, list[1]);
      if |list| > 2 {
        SplitPairOk(list);
        JoinStable(Rest(list));
        AmpersandStable();
        StableConcat(QueryMode(true), "&", Join(Rest(list)));
        StableConcat(QueryMode(true), JoinPair(list[0].value, list[1]), "&" + Join(Rest(list)));
      } else {
        assert Join(list) == JoinPair(list[0].value, list[1]);
      }
    }
  }

  lemma AmpersandStable()
    ensures Stable(QueryMode(true), "&")
  {
  }

  lemma JoinFree(list: NamesAndValues)
    requires QueryOk(list)
    ensures Free(Join(list), "#")
  {
    hide Join, ComponentsOk;
    JoinStable(list);
    StableFree(QueryMode(true), Join(list), "#");
  }

  /** Printing a canonical query and reading it back gives the same list. */
  lemma QueryReread(list: NamesAndValues)
    requires QueryOk(list)
    ensures QueryOf(QueryMode(true), Some(Join(list))) == Some(list)
  {
    hide Join, Split, Canon, Stable, Free;
    JoinStable(list);
    PlainSets();
    StableUnchanged(QueryMode(true), Join(list));
    SplitJoin(list);
  }

  predicate Buildable(b: Builder, host: HostFn)
  {
    Canonical(b, host) && b.scheme.Some? && b.host.Some?
  }

  lemma SchemeFree(b: Builder, host: HostFn)
    requires Buildable(b, host)
    ensures Free(SchemeText(b), "@?#\\") && |SchemeText(b)| == |b.scheme.value| + 3
  {
  }

  lemma PortTextFree(b: Builder, host: HostFn)
    requires Buildable(b, host)
    ensures Free(PortText(b), "@/\\?#[]%")
    ensures PortText(b) != "" ==> 0 < b.port <= 65535 && PortText(b) == ":" + PrintNat(b.port)
  {
  }

  lemma HostPortFree(b: Builder, host: HostFn)
    requires Buildable(b, host)
    ensures Free(HostPort(b), "@/\\?#") && HostPort(b) != "" && HostPort(b) == HostText(b.host.value) + PortText(b)
  {
    hide PortText;
    PortTextFree(b, host);
    var h := b.host.value;
    FreeFewer(h, "@/\\?#", "@/\\?#[]%");
    FreeFewer(PortText(b), "@/\\?#", "@/\\?#[]%");
    FreeConcat("[", h, "@/\\?#");
    FreeConcat("[" + h, "]", "@/\\?#");
    FreeConcat(HostText(h), PortText(b), "@/\\?#");
  }

  lemma UserInfoFree(b: Builder, host: HostFn)
    requires Buildable(b, host)
    ensures Free(UserInfo(b), "/\\?#")
  {
  }

  /** Query and fragment, the end of a printed URL. */
  function EndText(b: Builder): (r: string)
    requires WellShaped(b)
    ensures r != "" ==> r[0] == '?' || r[0] == '#'
    ensures b.query.None? && r != "" ==> r[0] == '#'
  {
    QueryText(b) + FragmentText(b)
  }

  function AfterAuthority(b: Builder): (r: string)
    requires WellShaped(b)
  {
    PathText(b.segments) + EndText(b)
  }

  function AfterScheme(b: Builder): (r: string)
    requires WellShaped(b)
    ensures Print(b) == SchemeText(b) + r
  {
    UserInfo(b) + (HostPort(b) + AfterAuthority(b))
  }

  lemma PathBeforeTail(b: Builder, host: HostFn)
    requires Buildable(b, host)
    ensures FirstOf(AfterAuthority(b), "?#") == |PathText(b.segments)|
    ensures PathText(b.segments) != "" && PathText(b.segments)[0] == '/'
  {
    hide SegmentOk, PathText, QueryText, FragmentText, ComponentsOk;
    PathFree(b.segments);
    FreeFewer(PathText(b.segments), "?#", "?#\\");
    FirstOfConcat(PathText(b.segments), EndText(b), "?#");
  }
}
