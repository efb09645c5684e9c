/** Relative links: `parse` with a base URL agrees with section 5.2 of RFC 3986. */
module Resolution {
  import opened Text
  import opened PercentCoding
  import opened QueryString
  import opened UrlBuilder
  import opened UrlCanonical
  import opened UrlShapes
  import opened HttpUrls
  import opened UrlParser
  import opened UrlHistory
  import opened Rfc3986

  // ---------------------------------------------------------------- reading a link

  /** The escaped spellings of "." and ".." count as dots. */
  function ReadSegment(s: string): (r: string)
  {
    if IsDot(s) then "." else if IsDotDot(s) then ".." else s
  }

  /** A link's path in RFC terms: characters canonical, '\' read as '/', dot segments spelled out. */
  function ReadPath(path: string): (r: string)
  {
    var k := FirstOf(path, "/\\");
    var s := ReadSegment(Canon(PathMode(true), path[..k]));
    if k < |path| then s + "/" + ReadPath(path[k + 1..]) else s
  }

  /** A link taken apart at '?' and '#'. */
  function ReadLink(link: string): (r: Reference)
  {
    var k := FirstOf(link, "?#");
    var t := link[k..];
    var q := FirstOf(t, "#");
    Reference(if k == 0 then "" else ReadPath(link[..k]),
              if t != "" && t[0] == '?' then Some(Canon(QueryMode(true), t[1..q])) else None,
              if q < |t| then Some(Canon(FragmentMode(true), t[q + 1..])) else None)
  }

  // ---------------------------------------------------------------- paths

  lemma {:induction false} PathTextAppend(segs: seq<string>, s: string)
    ensures PathText(segs + [s]) == PathText(segs) + "/" + s
  {
    if segs == [] {
      assert [] + [s] == [s] && [s][1..] == [];
      assert PathText([s]) == "/" + s + PathText([]);
    } else {
      assert (segs + [s])[1..] == segs[1..] + [s];
      PathTextAppend(segs[1..], s);
    }
  }

  lemma {:induction false} LastSlashAt(a: string, s: string)
    requires Free(s, "/")
    ensures LastSlash(a + "/" + s) == |a|
  {
    var t := a + "/" + s;
    if s == "" {
      assert t[|a|] == '/';
    } else {
      var n := |s| - 1;
      LastSlashAt(a, s[..n]);
      assert t[|t| - 1] == s[n] && s[n] !in "/";
      assert t[..|t| - 1] == a + "/" + s[..n];
    }
  }

  predicate DotFree(segs: seq<string>)
  {
    forall i :: 0 <= i < |segs| ==> SegmentOk(segs[i])
  }

  lemma RemoveLastSegment(segs: seq<string>)
    requires DotFree(segs)
    ensures RemoveLast(PathText(segs)) == PathText(if segs == [] then [] else segs[..|segs| - 1])
  {
    hide SegmentOk, PathText;
    if segs == [] {
      PathTextEmpty();
    } else {
      var init, s := segs[..|segs| - 1], segs[|segs| - 1];
      assert segs == init + [s];
      PathTextAppend(init, s);
      SegmentFree(s);
      FreeFewer(s, "/", "/\\?#");
      LastSlashAt(PathText(init), s);
    }
  }

  lemma NotDots(s: string)
    requires SegmentOk(s)
    ensures s != "." && s != ".."
  {
  }

  lemma NotPrefix(p: string, t: string, i: nat)
    requires i < |p| && (i >= |t| || t[i] != p[i])
    ensures !(p <= t)
  {
  }

  /** Steps 2A and 2D are for inputs that do not start with '/'. */
  lemma SlashFirst(input: string)
    requires input != "" && input[0] == '/'
    ensures !("../" <= input) && !("./" <= input) && input != "." && input != ".."
  {
  }

  lemma SegmentNotDots(s: string, rest: string)
    requires s != "." && s != ".." && Free(s, "/") && (rest != "" ==> rest[0] == '/')
    ensures var input := "/" + s + rest;
            !("/./" <= input) && !("/../" <= input) && input != "/." && input != "/.."
  {
    var input := "/" + s + rest;
    var dot, dots := "/./", "/../";
    assert forall i :: 1 <= i <= |s| ==> input[i] == s[i - 1];
    assert rest != "" ==> input[1 + |s|] == '/';
    NotPrefix(dot, input, if |s| <= 1 then 1 else 2);
    NotPrefix(dots, input, if |s| == 0 || (|s| == 2 && s[0] != '.') then 1 else if |s| <= 2 then 2 else 3);
    assert rest == "" ==> input[1..] == s;
    assert rest != "" ==> '/' in input[1..];
  }

  lemma FirstSegmentIs(s: string, rest: string)
    requires Free(s, "/") && (rest != "" ==> rest[0] == '/')
    ensures FirstSegment("/" + s + rest) == 1 + |s|
  {
    assert ("/" + s + rest)[1..] == s + rest;
    FirstOfConcat(s, rest, "/");
  }

  lemma StepE(input: string, output: string)
    requires input != "" && !("../" <= input) && !("./" <= input) && input != "." && input != ".."
    requires !("/./" <= input) && !("/../" <= input) && input != "/." && input != "/.."
    ensures var n := FirstSegment(input); Remove(input, output) == Remove(input[n..], output + input[..n])
  {
    hide FirstSegment, RemoveLast;
  }

  /** Step 2E moves a segment that is no dot segment. */
  lemma MoveSegment(s: string, rest: string, output: string)
    requires s != "." && s != ".." && Free(s, "/") && (rest != "" ==> rest[0] == '/')
    ensures Remove("/" + s + rest, output) == Remove(rest, output + "/" + s)
  {
    hide Remove, FirstSegment;
    var input := "/" + s + rest;
    SlashFirst(input);
    SegmentNotDots(s, rest);
    FirstSegmentIs(s, rest);
    StepE(input, output);
    var n := 1 + |s|;
    assert input[..n] == "/" + s && input[n..] == rest;
    assert output + ("/" + s) == output + "/" + s;
  }

  /** Dot-free segments in front of a path go to the output buffer unchanged. */
  lemma {:induction false} MoveAll(segs: seq<string>, rest: string, output: string)
    requires DotFree(segs) && rest != "" && rest[0] == '/'
    ensures Remove(PathText(segs) + rest, output) == Remove(rest, output + PathText(segs))
  {
    hide SegmentOk, Remove, PathText;
    if segs == [] {
      PathTextEmpty();
      assert "" + rest == rest && output + "" == output;
    } else {
      var s, more := segs[0], PathText(segs[1..]);
      PathTextUnfold(segs);
      PathTextEmpty();
      PathFree(segs[1..]);
      NotDots(s);
      SegmentFree(s);
      FreeFewer(s, "/", "/\\?#");
      Assoc("/" + s, more, rest);
      MoveSegment(s, more + rest, output);
      MoveAll(segs[1..], rest, output + "/" + s);
      assert output + "/" + s + more == output + ("/" + s + more);
    }
  }

  lemma SlashMoves(output: string)
    ensures Remove("/", output) == output + "/"
  {
  }

  lemma DotSteps(rest: string, output: string)
    ensures Remove("/./" + rest, output) == Remove("/" + rest, output)
    ensures Remove("/.", output) == output + "/"
  {
    hide RemoveLast, FirstSegment;
    SlashMoves(output);
    var input := "/./" + rest;
    SlashFirst(input);
    assert "/./" <= input && input[2..] == "/" + rest;
    SlashFirst("/.");
  }

  lemma DotDotSteps(rest: string, output: string)
    ensures Remove("/../" + rest, output) == Remove("/" + rest, RemoveLast(output))
    ensures Remove("/..", output) == RemoveLast(output) + "/"
  {
    hide RemoveLast, FirstSegment;
    SlashMoves(RemoveLast(output));
    var input, dot := "/../" + rest, "/./";
    SlashFirst(input);
    NotPrefix(dot, input, 2);
    assert "/../" <= input && input[3..] == "/" + rest;
    SlashFirst("/..");
  }

  lemma PopDone(done: seq<string>)
    ensures Pop(done + [""]) == (if done == [] then [] else done[..|done| - 1]) + [""]
  {
  }

  /** The push loop is `remove_dot_segments`, with the segments pushed so far as output buffer. */
  lemma {:induction false} PushAllRemovesDots(done: seq<string>, path: string)
    requires DotFree(done)
    ensures PathText(PushAll(done + [""], path)) == Remove("/" + ReadPath(path), PathText(done))
    decreases |path|
  {
    hide SegmentOk, Remove, PathText, Canon, FirstOf, PushAll, Push, IsDot, IsDotDot, ReadPath, RemoveLast, ReadSegment;
    var k := FirstOf(path, "/\\");
    ReadPathStep(path, k);
    PushAllStep(done + [""], path, k);
    if path == "" {
      EmptyPath();
      SlashMoves(PathText(done));
      PathTextAppend(done, "");
      assert "/" + "" == "/" && PathText(done) + "/" + "" == PathText(done) + "/";
    } else if k < |path| {
      var next := PushDone(done, path[..k]);
      PushAllRemovesDots(next, path[k + 1..]);
      RemoveStep(done, path[..k], ReadPath(path[k + 1..]));
    } else {
      assert path[..k] == path;
      RemoveFinal(done, path);
    }
  }

  /** The segments before the trailing "" once another one has been pushed. */
  function PushDone(done: seq<string>, text: string): (r: seq<string>)
    requires DotFree(done)
    ensures DotFree(r) && Push(done + [""], text, true, true) == r + [""]
  {
    var s := Canon(PathMode(true), text);
    if IsDot(s) then done
    else if IsDotDot(s) then PopDone(done); if done == [] then [] else done[..|done| - 1]
    else
      CanonSegmentOk(text);
      PushPlain(done, s, true);
      done + [s]
  }

  lemma RemoveStep(done: seq<string>, text: string, rest: string)
    requires DotFree(done)
    ensures Remove("/" + (ReadSegment(Canon(PathMode(true), text)) + "/" + rest), PathText(done))
         == Remove("/" + rest, PathText(PushDone(done, text)))
  {
    hide SegmentOk, Remove, PathText, Canon, IsDot, IsDotDot, RemoveLast, Push;
    var s, out := Canon(PathMode(true), text), PathText(done);
    if IsDot(s) {
      DotSteps(rest, out);
      assert "/" + ("." + "/" + rest) == "/./" + rest;
    } else if IsDotDot(s) {
      DotDotSteps(rest, out);
      RemoveLastSegment(done);
      assert "/" + (".." + "/" + rest) == "/../" + rest;
    } else {
      CanonSegmentOk(text);
      PathTextAppend(done, s);
      NotDots(s);
      SegmentFree(s);
      FreeFewer(s, "/", "/\\?#");
      MoveSegment(s, "/" + rest, out);
      assert "/" + (s + "/" + rest) == "/" + s + ("/" + rest);
    }
  }

  lemma RemoveFinal(done: seq<string>, text: string)
    requires DotFree(done)
    ensures Remove("/" + ReadSegment(Canon(PathMode(true), text)), PathText(done))
         == PathText(Push(done + [""], text, false, true))
  {
    hide SegmentOk, Remove, PathText, Canon, IsDot, IsDotDot, RemoveLast;
    var s, out := Canon(PathMode(true), text), PathText(done);
    if IsDot(s) {
      DotSteps("", out);
      PathTextAppend(done, "");
      assert "/" + "." == "/." && out + "/" + "" == out + "/";
    } else if IsDotDot(s) {
      DotDotSteps("", out);
      RemoveLastSegment(done);
      PopDone(done);
      PathTextAppend(if done == [] then [] else done[..|done| - 1], "");
      assert "/" + ".." == "/.." && RemoveLast(out) + "/" + "" == RemoveLast(out) + "/";
    } else {
      CanonSegmentOk(text);
      PathTextAppend(done, s);
      NotDots(s);
      SegmentFree(s);
      FreeFewer(s, "/", "/\\?#");
      MoveSegment(s, "", out);
      assert "/" + s + "" == "/" + s;
      PushPlain(done, s, false);
      assert done + [s] + [] == done + [s];
      RemoveEnd(out + "/" + s);
    }
  }

  lemma RemoveEnd(output: string)
    ensures Remove("", output) == output
  {
  }

  lemma CanonSegmentOk(text: string)
    ensures var s := Canon(PathMode(true), text); !IsDot(s) && !IsDotDot(s) ==> SegmentOk(s)
  {
    hide Canon, Stable, IsDot, IsDotDot;
    WeakerModes();
    CanonOutputStable(PathMode(true), text, PathMode(true));
  }

  lemma ReadPathStep(path: string, k: nat)
    requires k == FirstOf(path, "/\\")
    ensures ReadPath(path)
         == var s := ReadSegment(Canon(PathMode(true), path[..k]));
            if k < |path| then s + "/" + ReadPath(path[k + 1..]) else s
  {
    hide Canon, FirstOf, ReadSegment;
  }

  lemma EmptyPath()
    ensures ReadPath("") == ""
  {
  }

  lemma {:induction false} ReadPathStart(path: string)
    requires path != "" && (path[0] == '/' || path[0] == '\\')
    ensures ReadPath(path) == "/" + ReadPath(path[1..])
  {
    hide Canon;
    assert FirstOf(path, "/\\") == 0 && path[..0] == "";
    CanonEmpty(PathMode(true));
    assert !IsDot("") && !IsDotDot("");
  }

  lemma {:induction false} ReadPathRelative(path: string)
    requires path != "" && path[0] != '/' && path[0] != '\\' && !IsBreak(path[0])
    ensures ReadPath(path) != "" && ReadPath(path)[0] != '/'
  {
    hide Canon, IsDot, IsDotDot;
    var k := FirstOf(path, "/\\");
    assert k > 0 && path[..k][0] == path[0];
    CanonStarts(path[..k]);
  }

  lemma CanonStarts(s: string)
    requires s != "" && s[0] != '/' && !IsBreak(s[0])
    ensures Canon(PathMode(true), s) != "" && Canon(PathMode(true), s)[0] != '/'
  {
    hide HexDigit;
  }

  /** The path of a relative reference whose text is not empty: merge, then remove dots. */
  lemma ResolvedPath(segs: seq<string>, path: string)
    requires SegmentsOk(segs) && path != ""
    ensures PathText(ResolvePath(segs, path))
         == if path[0] == '/' || path[0] == '\\' then RemoveDotSegments(ReadPath(path))
            else RemoveDotSegments(Merge(PathText(segs), ReadPath(path)))
  {
    hide SegmentOk, Remove, PathText, PushAll, ReadPath, LastSlash;
    PathTextEmpty();
    if path[0] in "/\\" {
      PushAllRemovesDots([], path[1..]);
      ReadPathStart(path);
      assert [] + [""] == [""];
    } else {
      var init, last := segs[..|segs| - 1], segs[|segs| - 1];
      assert segs == init + [last];
      assert SetLast(segs, "") == init + [""];
      PushAllRemovesDots(init, path);
      PathTextAppend(init, last);
      SegmentFree(last);
      FreeFewer(last, "/", "/\\?#");
      LastSlashAt(PathText(init), last);
      var base := PathText(segs);
      assert base[..LastSlash(base) + 1] == PathText(init) + "/";
      Assoc(PathText(init), "/", ReadPath(path));
      MoveAll(init, "/" + ReadPath(path), "");
      assert "" + PathText(init) == PathText(init);
    }
  }

  /** `r` is the target that section 5.2.2 of RFC 3986 gives for the relative reference `text` on the base
      `b`; everything else is the base's. */
  ghost predicate IsTarget(b: Builder, text: string, r: Builder)
    requires WellShaped(b)
  {
    var baseQuery := if b.query.Some? then Some(Join(b.query.value)) else None;
    var target := Transform(PathText(b.segments), baseQuery, ReadLink(text));
    && WellShaped(r)
    && PathText(r.segments) == target.path
    && r.query == (if target.query.Some? then Some(Split(target.query.value)) else None)
    && r.fragment == target.fragment
    && r == b.(port := EffectivePort(b), segments := r.segments, query := r.query, fragment := r.fragment)
  }

  lemma TailIsTarget(b: Builder, t: string, host: HostFn)
    requires Buildable(b, host) && (t != "" ==> !IsBreak(t[0]))
    ensures Inherit(BaseUrl(Some(b), host).value, t).segments != []
    ensures IsTarget(b, t, ParseTail(Inherit(BaseUrl(Some(b), host).value, t), t))
  {
    hide SegmentOk, Remove, PathText, ResolvePath, ReadPath, LastSlash, Canon, FirstOf, Join, Split,
      ComponentsOk, HostShape, Stable, Inherit, Merge, RemoveDotSegments, Build, InRange, SegmentParts;
    InheritOk(b, t, host);
    var i := Inherit(BaseUrl(Some(b), host).value, t);
    var k := FirstOf(t, "?#");
    var e := t[k..];
    TailParts(i, t, k, e);
    hide ParseTail;
    if k > 0 {
      ResolvedPath(b.segments, t[..k]);
      assert t[..k][0] == t[0];
      if t[0] == '/' || t[0] == '\\' {
        ReadPathStart(t[..k]);
      } else {
        ReadPathRelative(t[..k]);
      }
    } else {
      NoPathKept(i.segments);
      assert t[..0] == "";
    }
    if b.query.Some? {
      JoinedQuery(b.query.value);
    }
  }

  /** Relative resolution: for every base URL and every link without scheme and authority, `parse`
      yields the target of section 5.2.2 of RFC 3986, with everything else taken from the base. */
  lemma ResolvesAsRfc(b: Builder, link: string, host: HostFn)
    requires Buildable(b, host)
    requires SchemeDelimiter(TrimBoth(link)) == -1 && SlashCount(TrimBoth(link)) < 2
    ensures var r := Parse(BaseUrl(Some(b), host), link, host);
            r.Ok? && IsTarget(b, TrimBoth(link), r.value)
  {
    hide IsTarget, TrimBoth, ParseTail, Inherit, InRange, SegmentParts, Build, SchemeDelimiter, SlashCount, HostShape,
      ComponentsOk, SegmentOk, Stable;
    TrimmedStart(link);
    TailIsTarget(b, TrimBoth(link), host);
    InheritOk(b, TrimBoth(link), host);
  }

  lemma TrimmedStart(s: string)
    ensures TrimBoth(s) != "" ==> !IsSpace(TrimBoth(s)[0]) && !IsBreak(TrimBoth(s)[0])
  {
  }

  lemma NoPathKept(segs: seq<string>)
    requires segs != []
    ensures ResolvePath(segs, "") == segs
  {
  }

  lemma JoinedQuery(list: NamesAndValues)
    requires QueryOk(list)
    ensures Split(Join(list)) == list
  {
    hide Join, Split, Free, Stable;
    SplitJoin(list);
  }
}
