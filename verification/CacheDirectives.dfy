/** What Cache-Control and Pragma headers say, directive by directive, in the terms of section 5.2 of
    RFC 7234; and that the parser reads just that. */
module CacheDirectives {
  import opened Text
  import opened CacheControl

  datatype Directive = Directive(name: string, value: Option<string>)

  // ---------------------------------------------------------------- what directives mean

  predicate Says(list: seq<Directive>, name: string)
  {
    exists i :: 0 <= i < |list| && EqualsIgnoreCase(list[i].name, name)
  }

  /** Delta-seconds: no less than 0 and no more than 2147483647; `bare` where there is no number that a
      `long` can hold. */
  function Seconds(value: Option<string>, bare: int): (n: int)
  {
    if value.None? || ParseInteger(value.value).None? then bare
    else
      var n := ParseInteger(value.value).value;
      if n < -9223372036854775808 || 9223372036854775807 < n then bare
      else if n < 0 then 0 else if n < 2147483647 then n else 2147483647
  }

  /** The last directive of that name decides; -1 if there is none. */
  function LastSeconds(list: seq<Directive>, name: string, bare: int): (n: int)
    decreases |list|
  {
    if list == [] then -1
    else
      var last := list[|list| - 1];
      if EqualsIgnoreCase(last.name, name) then Seconds(last.value, bare)
      else LastSeconds(list[..|list| - 1], name, bare)
  }

  /** The twelve fields say what the directives say. */
  predicate Reads(list: seq<Directive>, d: Directives)
  {
    ReadsFlags(list, d) && ReadsNumbers(list, d)
  }

  predicate ReadsFlags(list: seq<Directive>, d: Directives)
  {
    && (d.noCache <==> Says(list, "no-cache"))
    && (d.noStore <==> Says(list, "no-store"))
    && (d.isPrivate <==> Says(list, "private"))
    && (d.isPublic <==> Says(list, "public"))
    && (d.mustRevalidate <==> Says(list, "must-revalidate"))
    && (d.onlyIfCached <==> Says(list, "only-if-cached"))
    && (d.noTransform <==> Says(list, "no-transform"))
    && (d.immutable <==> Says(list, "immutable"))
  }

  predicate ReadsNumbers(list: seq<Directive>, d: Directives)
  {
    && d.maxAge == LastSeconds(list, "max-age", -1)
    && d.sMaxAge == LastSeconds(list, "s-maxage", -1)
    && d.maxStale == LastSeconds(list, "max-stale", 2147483647)
    && d.minFresh == LastSeconds(list, "min-fresh", -1)
  }

  // ---------------------------------------------------------------- the directives of a text

  /** The directives of a header value; nameless ones, as between two commas, are left out. */
  function DirectivesOf(s: string): (list: seq<Directive>)
    decreases |s|
  {
    if s == "" then []
    else
      var t := NextToken(s);
      (if t.directive == "" then [] else [Directive(t.directive, t.parameter)]) + DirectivesOf(s[t.next..])
  }

  lemma DirectivesStep(s: string)
    requires s != ""
    ensures var t := NextToken(s);
            DirectivesOf(s) == (if t.directive == "" then [] else [Directive(t.directive, t.parameter)])
                               + DirectivesOf(s[t.next..])
  {
    hide NextToken;
  }

  /** The directives of all Cache-Control and Pragma headers, in order. */
  function AllDirectives(headers: Headers): (list: seq<Directive>)
  {
    if headers == [] then []
    else
      (if EqualsIgnoreCase(headers[0].0, "cache-control") || EqualsIgnoreCase(headers[0].0, "pragma")
       then DirectivesOf(headers[0].1) else [])
      + AllDirectives(headers[1..])
  }

  /** The parser's fields after some directives. */
  function Fold(d: Directives, list: seq<Directive>): (r: Directives)
    decreases |list|
  {
    if list == [] then d else Fold(Apply(d, list[0].name, list[0].value), list[1..])
  }

  lemma {:induction false} FoldConcat(d: Directives, a: seq<Directive>, b: seq<Directive>)
    ensures Fold(d, a + b) == Fold(Fold(d, a), b)
    decreases |a|
  {
    hide Apply;
    if a == [] {
      assert a + b == b;
    } else {
      assert (a + b)[1..] == a[1..] + b && (a + b)[0] == a[0];
      FoldConcat(Apply(d, a[0].name, a[0].value), a[1..], b);
    }
  }

  lemma FoldOne(d: Directives, x: Directive)
    ensures Fold(d, [x]) == Apply(d, x.name, x.value) && Fold(d, []) == d
  {
    hide Apply;
    assert [x][1..] == [];
  }

  lemma {:induction false} ParseFolds(d: Directives, s: string)
    ensures ParseValue(d, s) == Fold(d, DirectivesOf(s))
    decreases |s|
  {
    hide Apply, NextToken, ParseValue, DirectivesOf, Fold;
    if s == "" {
      ParseEmpty(d);
      NothingWritten();
      FoldOne(d, Directive("", None));
    } else {
      var t := NextToken(s);
      ParseStep(d, s);
      DirectivesStep(s);
      ParseFolds(Apply(d, t.directive, t.parameter), s[t.next..]);
      FoldToken(d, t, DirectivesOf(s[t.next..]));
    }
  }

  lemma FoldToken(d: Directives, t: Token, rest: seq<Directive>)
    ensures Fold(d, (if t.directive == "" then [] else [Directive(t.directive, t.parameter)]) + rest)
         == Fold(Apply(d, t.directive, t.parameter), rest)
  {
    hide Apply, Fold;
    if t.directive == "" {
      NamelessIgnored(d, t.parameter);
      assert [] + rest == rest;
    } else {
      var x := Directive(t.directive, t.parameter);
      FoldOne(d, x);
      FoldConcat(d, [x], rest);
    }
  }

  lemma NamelessIgnored(d: Directives, parameter: Option<string>)
    ensures Apply(d, "", parameter) == d
  {
    hide Set;
  }

  lemma {:induction false} HeadersFold(d: Directives, headers: Headers)
    ensures ParseHeaders(d, headers) == Fold(d, AllDirectives(headers))
    decreases |headers|
  {
    if headers != [] {
      hide Fold, ParseValue, DirectivesOf, EqualsIgnoreCase;
      var h, rest := headers[0], AllDirectives(headers[1..]);
      HeadersStep(d, headers);
      if IsCacheControl(h) || IsPragma(h) {
        ParseFolds(d, h.1);
        FoldConcat(d, DirectivesOf(h.1), rest);
        HeadersFold(ParseValue(d, h.1), headers[1..]);
      } else {
        assert [] + rest == rest;
        HeadersFold(d, headers[1..]);
      }
    } else {
      HeadersEnd(d);
    }
  }

  // ---------------------------------------------------------------- the fields say what the directives say

  lemma SaysOneMore(list: seq<Directive>, x: Directive, name: string)
    ensures Says(list + [x], name) <==> Says(list, name) || EqualsIgnoreCase(x.name, name)
  {
    hide EqualsIgnoreCase;
    var longer := list + [x];
    assert longer[|list|] == x && forall i :: 0 <= i < |list| ==> longer[i] == list[i];
  }

  lemma LastOneMore(list: seq<Directive>, x: Directive, name: string, bare: int)
    ensures LastSeconds(list + [x], name, bare)
         == if EqualsIgnoreCase(x.name, name) then Seconds(x.value, bare) else LastSeconds(list, name, bare)
  {
    hide EqualsIgnoreCase, Seconds;
    assert (list + [x])[..|list|] == list;
  }

  lemma SameSeconds(value: Option<string>, bare: int)
    ensures Seconds(value, bare) == ParseSeconds(value, bare)
  {
  }

  /** What one recognised directive does to the flags and to the numbers. */
  lemma SetCaching(d: Directives, n: Name, value: Option<string>)
    ensures Set(d, n, value).noCache == (n == NoCache || d.noCache)
    ensures Set(d, n, value).noStore == (n == NoStore || d.noStore)
  {
    hide ParseSeconds;
  }

  lemma SetSharing(d: Directives, n: Name, value: Option<string>)
    ensures Set(d, n, value).isPrivate == (n == Private || d.isPrivate)
    ensures Set(d, n, value).isPublic == (n == Public || d.isPublic)
  {
    hide ParseSeconds;
  }

  lemma SetChecking(d: Directives, n: Name, value: Option<string>)
    ensures Set(d, n, value).mustRevalidate == (n == MustRevalidate || d.mustRevalidate)
    ensures Set(d, n, value).onlyIfCached == (n == OnlyIfCached || d.onlyIfCached)
  {
    hide ParseSeconds;
  }

  lemma SetChanging(d: Directives, n: Name, value: Option<string>)
    ensures Set(d, n, value).noTransform == (n == NoTransform || d.noTransform)
    ensures Set(d, n, value).immutable == (n == Immutable || d.immutable)
  {
    hide ParseSeconds;
  }

  lemma SetNumbers(d: Directives, n: Name, value: Option<string>)
    ensures var r := Set(d, n, value);
            && r.maxAge == (if n == MaxAge then Seconds(value, -1) else d.maxAge)
            && r.sMaxAge == (if n == SMaxAge then Seconds(value, -1) else d.sMaxAge)
            && r.maxStale == (if n == MaxStale then Seconds(value, 2147483647) else d.maxStale)
            && r.minFresh == (if n == MinFresh then Seconds(value, -1) else d.minFresh)
  {
    hide ParseSeconds, Seconds;
    SameSeconds(value, -1);
    SameSeconds(value, 2147483647);
  }

  lemma FlagsOneMore(list: seq<Directive>, d: Directives, x: Directive)
    requires ReadsFlags(list, d)
    ensures ReadsFlags(list + [x], Apply(d, x.name, x.value))
  {
    hide EqualsIgnoreCase, Lookup, Says, Set;
    if Lookup(x.name).Some? {
      SetCaching(d, Lookup(x.name).value, x.value);
      SetSharing(d, Lookup(x.name).value, x.value);
      SetChecking(d, Lookup(x.name).value, x.value);
      SetChanging(d, Lookup(x.name).value, x.value);
    }
    SaysOneMore(list, x, "no-cache");
    LookupName(x.name, NoCache);
    SaysOneMore(list, x, "no-store");
    LookupName(x.name, NoStore);
    SaysOneMore(list, x, "private");
    LookupName(x.name, Private);
    SaysOneMore(list, x, "public");
    LookupName(x.name, Public);
    SaysOneMore(list, x, "must-revalidate");
    LookupName(x.name, MustRevalidate);
    SaysOneMore(list, x, "only-if-cached");
    LookupName(x.name, OnlyIfCached);
    SaysOneMore(list, x, "no-transform");
    LookupName(x.name, NoTransform);
    SaysOneMore(list, x, "immutable");
    LookupName(x.name, Immutable);
  }

  lemma NumbersOneMore(list: seq<Directive>, d: Directives, x: Directive)
    requires ReadsNumbers(list, d)
    ensures ReadsNumbers(list + [x], Apply(d, x.name, x.value))
  {
    hide EqualsIgnoreCase, Lookup, LastSeconds, Seconds, Set;
    if Lookup(x.name).Some? {
      SetNumbers(d, Lookup(x.name).value, x.value);
    }
    LastOneMore(list, x, "max-age", -1);
    LookupName(x.name, MaxAge);
    LastOneMore(list, x, "s-maxage", -1);
    LookupName(x.name, SMaxAge);
    LastOneMore(list, x, "max-stale", 2147483647);
    LookupName(x.name, MaxStale);
    LastOneMore(list, x, "min-fresh", -1);
    LookupName(x.name, MinFresh);
  }

  lemma {:induction false} FoldReads(list: seq<Directive>)
    ensures Reads(list, Fold(ABSENT, list))
    decreases |list|
  {
    if list != [] {
      hide ReadsFlags, ReadsNumbers, Apply;
      var init, x := list[..|list| - 1], list[|list| - 1];
      assert list == init + [x];
      FoldReads(init);
      FoldConcat(ABSENT, init, [x]);
      assert Fold(Fold(ABSENT, init), [x]) == Apply(Fold(ABSENT, init), x.name, x.value);
      FlagsOneMore(init, Fold(ABSENT, init), x);
      NumbersOneMore(init, Fold(ABSENT, init), x);
    }
  }

  /** For every list of headers the parser's fields are what the directives of the Cache-Control and Pragma
      headers say. */
  lemma HeadersRead(headers: Headers)
    ensures Reads(AllDirectives(headers), ParseHeaders(ABSENT, headers))
  {
    hide Reads, Fold;
    HeadersFold(ABSENT, headers);
    FoldReads(AllDirectives(headers));
  }

  // ---------------------------------------------------------------- the text of directives

  /** A directive as section 5.2 of RFC 7234 writes it: bare, with a token, or with a quoted string. */
  datatype Content =
    | Bare(name: string)
    | WithToken(name: string, value: string)
    | WithQuoted(name: string, value: string)

  /** A directive with the blanks around its parts and the separator behind it. */
  datatype Written =
    Written(content: Content, lead: string, before: string, after: string, trail: string, separator: char)

  /** Everything up to the end of the directive's name. */
  function HeadText(w: Written): (s: string) { w.lead + w.content.name + w.before }

  function ValueText(w: Written): (s: string)
  {
    match w.content
    case Bare(_) => ""
    case WithToken(_, value) => "=" + (w.after + (value + w.trail))
    case WithQuoted(_, value) => "=" + (w.after + ("\"" + (value + ("\"" + w.trail))))
  }

  function TextOf(w: Written): (s: string) { HeadText(w) + ValueText(w) }

  function Meant(w: Written): (d: Directive)
  {
    Directive(w.content.name, if w.content.Bare? then None else Some(w.content.value))
  }

  predicate Edged(s: string) { s != "" && s[0] > ' ' && s[|s| - 1] > ' ' }

  predicate Blank(s: string) { forall i :: 0 <= i < |s| ==> s[i] == ' ' || s[i] == '\t' }

  predicate WellWritten(w: Written)
  {
    && Edged(w.content.name) && Free(w.content.name, "=,;")
    && Blank(w.lead) && Blank(w.before) && Blank(w.after) && Blank(w.trail)
    && (w.separator == ',' || w.separator == ';')
    && match w.content
       case Bare(_) => true
       case WithToken(_, value) =>
         Free(value, ",;") && if value == "" then w.trail == "" else Edged(value) && value[0] != '"'
       case WithQuoted(_, value) => Free(value, "\"")
  }

  /** The directives one after the other; the last one needs no separator. */
  function Listed(list: seq<Written>): (s: string)
  {
    if list == [] then "" else if |list| == 1 then TextOf(list[0])
    else TextOf(list[0]) + ([list[0].separator] + Listed(list[1..]))
  }

  function AllMeant(list: seq<Written>): (r: seq<Directive>)
  {
    if list == [] then [] else [Meant(list[0])] + AllMeant(list[1..])
  }

  /** What may follow a directive, and what is left behind the separator. */
  predicate Tail(s: string) { s == "" || s[0] == ',' || s[0] == ';' }

  function Behind(tail: string): (s: string) { if tail == "" then "" else tail[1..] }

  lemma {:induction false} TrimBlanks(a: string, s: string, b: string)
    requires Blank(a) && Blank(b) && (s == "" || Edged(s)) && (s == "" ==> b == "")
    ensures Trim(a + s + b) == s
    decreases |a| + |b|
  {
    var t := a + s + b;
    if a != "" {
      assert t[1..] == a[1..] + s + b;
      TrimBlanks(a[1..], s, b);
    } else if b != "" {
      assert t[..|t| - 1] == a + s + b[..|b| - 1];
      TrimBlanks(a, s, b[..|b| - 1]);
    } else {
      assert t == s;
    }
  }

  lemma {:induction false} BlanksInFront(a: string, t: string)
    requires Blank(a) && (t != "" ==> t[0] != ' ' && t[0] != '\t')
    ensures Blanks(a + t) == |a|
  {
    if a == "" {
      assert a + t == t;
    } else {
      assert (a + t)[1..] == a[1..] + t;
      BlanksInFront(a[1..], t);
    }
  }

  lemma BlankFree(a: string)
    requires Blank(a)
    ensures Free(a, "=,;") && Free(a, ",;")
  {
  }

  lemma HeadFree(w: Written)
    requires WellWritten(w)
    ensures Free(HeadText(w), "=,;") && Trim(HeadText(w)) == w.content.name && HeadText(w) != ""
  {
    BlankFree(w.lead);
    BlankFree(w.before);
    TrimBlanks(w.lead, w.content.name, w.before);
  }

  /** Blanks and a separator are an empty directive. */
  lemma BlanksSkipped(trail: string, tail: string)
    requires Blank(trail) && Tail(tail)
    ensures DirectivesOf(trail + tail) == DirectivesOf(Behind(tail))
  {
    hide DirectivesOf, Trim, FirstOf, ReadParameter;
    var s := trail + tail;
    if s != "" {
      BlankFree(trail);
      FirstAt(trail, tail, "=,;");
      assert s[..|trail|] == trail;
      assert trail + "" + "" == trail;
      TrimBlanks(trail, "", "");
      DirectivesStep(s);
      assert s[NextToken(s).next..] == Behind(tail);
      assert [] + DirectivesOf(Behind(tail)) == DirectivesOf(Behind(tail));
    }
  }

  lemma UnquotedAt(s: string, w: nat, n: nat)
    requires Blanks(s) == w <= |s| && (w < |s| ==> s[w] != '"') && FirstOf(s[w..], ",;") == n
    ensures ReadParameter(s) == (Trim(s[w..w + n]), w + n)
  {
    hide Trim, FirstOf, Blanks;
  }

  lemma ReadUnquoted(after: string, v: string, trail: string, tail: string)
    requires Blank(after) && Blank(trail) && Free(v, ",;") && Tail(tail)
    requires if v == "" then trail == "" else Edged(v) && v[0] != '"'
    ensures ReadParameter(after + (v + (trail + tail))) == (v, |after| + |v| + |trail|)
  {
    hide Trim, FirstOf, Blanks, ReadParameter;
    var rest := v + (trail + tail);
    var s, w, n := after + rest, |after|, |v| + |trail|;
    FrontOf(v, trail, tail);
    BlanksInFront(after, rest);
    BlankFree(trail);
    assert rest == v + trail + tail;
    FirstAt(v + trail, tail, ",;");
    assert "" + v + trail == v + trail;
    TrimBlanks("", v, trail);
    hide Free, Blank, Edged, Tail;
    assert s[w..] == rest && s[w..w + n] == v + trail;
    UnquotedAt(s, w, n);
  }

  /** What a token begins with is neither a blank nor a quote. */
  lemma FrontOf(v: string, trail: string, tail: string)
    requires Tail(tail) && if v == "" then trail == "" else Edged(v) && v[0] != '"'
    ensures var rest := v + (trail + tail); rest != "" ==> rest[0] != ' ' && rest[0] != '\t' && rest[0] != '"'
  {
    var rest := v + (trail + tail);
    assert rest != "" ==> rest[0] == if v != "" then v[0] else tail[0];
  }

  lemma ReadQuoted(after: string, v: string, rest: string)
    requires Blank(after) && Free(v, "\"")
    ensures ReadParameter(after + ("\"" + (v + ("\"" + rest)))) == (v, |after| + |v| + 2)
  {
    hide Trim, FirstOf, Blanks;
    var s := after + ("\"" + (v + ("\"" + rest)));
    BlanksInFront(after, "\"" + (v + ("\"" + rest)));
    assert s[|after| + 1..] == v + ("\"" + rest);
    FirstAt(v, "\"" + rest, "\"");
    assert s[|after| + 1..|after| + 1 + |v|] == v;
  }

  /** The token that a name and what follows it make. */
  lemma BareToken(head: string, name: string, tail: string)
    requires Free(head, "=,;") && Trim(head) == name && head != "" && Tail(tail)
    ensures NextToken(head + tail) == Token(name, None, if tail == "" then |head| else |head| + 1)
  {
    hide Trim, FirstOf, ReadParameter, Free;
    FirstAt(head, tail, "=,;");
    assert (head + tail)[..|head|] == head;
  }

  lemma ValueToken(s: string, head: string, name: string, value: string, n: nat)
    requires |head| < |s| && s[..|head|] == head && s[|head|] == '=' && ReadParameter(s[|head| + 1..]) == (value, n)
    requires Free(head, "=,;") && Trim(head) == name
    ensures NextToken(s) == Token(name, Some(value), |head| + 1 + n)
  {
    hide Trim, FirstOf, ReadParameter, Free;
    assert s == head + s[|head|..];
    FirstAt(head, s[|head|..], "=,;");
  }

  lemma ReadBare(head: string, name: string, tail: string)
    requires Free(head, "=,;") && Trim(head) == name && head != "" && name != "" && Tail(tail)
    ensures DirectivesOf(head + tail) == [Directive(name, None)] + DirectivesOf(Behind(tail))
  {
    hide NextToken, Free, DirectivesOf, Trim;
    BareToken(head, name, tail);
    DirectivesStep(head + tail);
    assert tail == "" ==> (head + tail)[|head|..] == "";
    assert tail != "" ==> (head + tail)[|head| + 1..] == tail[1..];
  }

  lemma ReadWithValue(head: string, name: string, text: string, value: string, rest: string)
    requires Free(head, "=,;") && Trim(head) == name && name != ""
    requires ReadParameter(text + rest) == (value, |text|)
    ensures DirectivesOf(head + ("=" + (text + rest))) == [Directive(name, Some(value))] + DirectivesOf(rest)
  {
    hide NextToken, ReadParameter, Free, DirectivesOf, Trim;
    var s := head + ("=" + (text + rest));
    Slices(s, head, text, rest);
    ValueToken(s, head, name, value, |text|);
    TokenStep(s, name, value, |head| + 1 + |text|, rest);
  }

  lemma TokenStep(s: string, name: string, value: string, n: nat, rest: string)
    requires n <= |s| && s[n..] == rest && s != "" && name != "" && NextToken(s) == Token(name, Some(value), n)
    ensures DirectivesOf(s) == [Directive(name, Some(value))] + DirectivesOf(rest)
  {
    hide NextToken, DirectivesOf;
    DirectivesStep(s);
  }

  lemma Slices(s: string, head: string, text: string, rest: string)
    requires s == head + ("=" + (text + rest))
    ensures |s| == |head| + 1 + |text| + |rest| && s[..|head|] == head && s[|head|] == '='
    ensures s[|head| + 1..] == text + rest && s[|head| + 1 + |text|..] == rest
  {
  }

  /** One turn of the parser's loop reads one directive, and at most one more turn what is left of it. */
  lemma ReadWritten(w: Written, tail: string)
    requires WellWritten(w) && Tail(tail)
    ensures DirectivesOf(TextOf(w) + tail) == [Meant(w)] + DirectivesOf(Behind(tail))
  {
    var head, name := HeadText(w), w.content.name;
    HeadFree(w);
    match w.content
    case Bare(_) =>
      ReadBare(head, name, tail);
      assert head + "" == head;
    case WithToken(_, value) => ReadTokenForm(w, tail);
    case WithQuoted(_, value) => ReadQuotedForm(w, tail);
  }

  lemma ReadTokenForm(w: Written, tail: string)
    requires WellWritten(w) && Tail(tail) && w.content.WithToken?
    ensures DirectivesOf(TextOf(w) + tail) == [Meant(w)] + DirectivesOf(Behind(tail))
  {
    hide DirectivesOf, ReadParameter, Trim, HeadText;
    var head, name, value := HeadText(w), w.content.name, w.content.value;
    var text := w.after + (value + w.trail);
    HeadFree(w);
    ReadUnquoted(w.after, value, w.trail, tail);
    hide Free, Edged, Blank;
    assert text + tail == w.after + (value + (w.trail + tail));
    ReadWithValue(head, name, text, value, tail);
    Regroup(head, text, tail);
    EmptyBlank();
    assert "" + tail == tail;
    BlanksSkipped("", tail);
  }

  lemma ReadQuotedForm(w: Written, tail: string)
    requires WellWritten(w) && Tail(tail) && w.content.WithQuoted?
    ensures DirectivesOf(TextOf(w) + tail) == [Meant(w)] + DirectivesOf(Behind(tail))
  {
    hide DirectivesOf, ReadParameter, Trim, HeadText;
    var head, name, value := HeadText(w), w.content.name, w.content.value;
    var text := w.after + ("\"" + (value + "\""));
    HeadFree(w);
    ReadQuoted(w.after, value, w.trail + tail);
    hide Free, Edged;
    assert text + (w.trail + tail) == w.after + ("\"" + (value + ("\"" + (w.trail + tail))));
    ReadWithValue(head, name, text, value, w.trail + tail);
    assert ValueText(w) == "=" + (text + w.trail);
    assert (text + w.trail) + tail == text + (w.trail + tail);
    Regroup(head, text + w.trail, tail);
    BlanksSkipped(w.trail, tail);
  }

  lemma Regroup(head: string, text: string, tail: string)
    ensures head + ("=" + text) + tail == head + ("=" + (text + tail))
  {
  }

  lemma EmptyBlank()
    ensures Blank("")
  {
  }

  lemma {:induction false} ReadListed(list: seq<Written>)
    requires forall i :: 0 <= i < |list| ==> WellWritten(list[i])
    ensures DirectivesOf(Listed(list)) == AllMeant(list)
    decreases |list|
  {
    hide DirectivesOf, TextOf, Meant;
    if list == [] {
      NothingWritten();
    } else {
      var rest := list[1..];
      ReadListed(rest);
      if rest == [] {
        assert Listed(list) == TextOf(list[0]) + "";
        ReadWritten(list[0], "");
      } else {
        ReadWritten(list[0], [list[0].separator] + Listed(rest));
      }
    }
  }

  lemma OneHeader(header: string, value: string)
    requires EqualsIgnoreCase(header, "cache-control") || EqualsIgnoreCase(header, "pragma")
    ensures AllDirectives([(header, value)]) == DirectivesOf(value)
  {
    hide DirectivesOf, EqualsIgnoreCase;
    assert [(header, value)][1..] == [];
    assert DirectivesOf(value) + [] == DirectivesOf(value);
  }

  lemma NothingWritten()
    ensures DirectivesOf("") == []
  {
  }

  /** Every list of directives, with commas or semicolons behind them and blanks around their parts, bare, with
      tokens or with quoted strings, in a Cache-Control or a Pragma header: the parser reads what was meant. */
  lemma WrittenIsRead(header: string, list: seq<Written>)
    requires EqualsIgnoreCase(header, "cache-control") || EqualsIgnoreCase(header, "pragma")
    requires forall i :: 0 <= i < |list| ==> WellWritten(list[i])
    ensures Reads(AllMeant(list), ParseHeaders(ABSENT, [(header, Listed(list))]))
  {
    hide Reads, DirectivesOf, WellWritten, EqualsIgnoreCase, ParseHeaders, Listed, AllMeant;
    HeadersRead([(header, Listed(list))]);
    OneHeader(header, Listed(list));
    ReadListed(list);
  }

  // ---------------------------------------------------------------- the printer's text

  function ContentOf(i: Item): (c: Content)
  {
    if i.seconds.None? then Bare(NameText(i.name)) else WithToken(NameText(i.name), PrintInt(i.seconds.value))
  }

  /** The items with ", " between them. */
  function AsWritten(items: seq<Item>, lead: string): (list: seq<Written>)
  {
    if items == [] then []
    else [Written(ContentOf(items[0]), lead, "", "", "", ',')] + AsWritten(items[1..], " ")
  }

  lemma ItemWritten(i: Item, lead: string)
    requires Printable(i) && Blank(lead)
    ensures var w := Written(ContentOf(i), lead, "", "", "", ','); TextOf(w) == lead + ItemText(i) && WellWritten(w)
  {
    hide NameText, Free, Blank, PrintInt;
    NameShape(i.name);
    OneBlank();
    var w, name := Written(ContentOf(i), lead, "", "", "", ','), NameText(i.name);
    assert HeadText(w) == lead + name;
    if i.seconds.Some? {
      var digits := PrintInt(i.seconds.value);
      NumberShape(i.seconds.value);
      assert ValueText(w) == "=" + digits;
      assert lead + name + ("=" + digits) == lead + (name + ("=" + digits));
    } else {
      assert ItemText(i) == name;
    }
  }

  lemma NumberShape(n: nat)
    ensures var s := PrintInt(n); Edged(s) && s[0] != '"' && Free(s, ",;")
  {
    DigitsShape(n);
  }

  lemma {:induction false} JoinedIsListed(items: seq<Item>, lead: string)
    requires items != [] && Blank(lead) && forall k :: 0 <= k < |items| ==> Printable(items[k])
    ensures Listed(AsWritten(items, lead)) == lead + Joined(items) && |AsWritten(items, lead)| == |items|
    ensures forall k :: 0 <= k < |items| ==> WellWritten(AsWritten(items, lead)[k])
    decreases |items|
  {
    hide ItemText, TextOf, WellWritten, Printable, ContentOf;
    ItemWritten(items[0], lead);
    var rest, list := items[1..], AsWritten(items, lead);
    assert list[1..] == AsWritten(rest, " ");
    if rest != [] {
      OneBlank();
      JoinedIsListed(rest, " ");
      assert Listed(list) == lead + ItemText(items[0]) + ("," + (" " + Joined(rest)));
      Commas(lead, ItemText(items[0]), Joined(rest));
    }
  }

  lemma Commas(lead: string, first: string, rest: string)
    ensures lead + first + ("," + (" " + rest)) == lead + (first + ", " + rest)
  {
  }

  lemma OneBlank()
    ensures Blank(" ") && Blank("")
  {
  }

  /** What `headerValue` prints is a list of well-written directives, ", " between them, that say exactly the
      fields. */
  lemma PrintedIsWritten(d: Directives)
    requires InRange(d)
    ensures exists list: seq<Written> ::
              && Joined(Items(d)) == Listed(list) && Reads(AllMeant(list), d)
              && forall k :: 0 <= k < |list| ==> WellWritten(list[k])
  {
    hide Joined, Items, Listed, Reads, AllMeant, WellWritten, InRange, Printable, ParseHeaders, ParseValue;
    var items := Items(d);
    forall k | 0 <= k < |items|
      ensures Printable(items[k])
    {
      ItemsPrintable(d, items[k]);
    }
    var list := AsWritten(items, "");
    if items == [] {
      NothingListed();
    } else {
      OneBlank();
      JoinedIsListed(items, "");
      assert "" + Joined(items) == Joined(items);
    }
    CacheControlItself();
    WrittenIsRead("Cache-Control", list);
    PrintedReadsBack(d);
    OnlyOneCounts(ABSENT, [("Cache-Control", Joined(items))], 0);
  }

  lemma NothingListed()
    ensures Listed([]) == "" == Joined([])
  {
  }

  lemma CacheControlItself()
    ensures EqualsIgnoreCase("Cache-Control", "cache-control")
  {
  }

  // ---------------------------------------------------------------- one bare directive

  /** What a single directive without a value says: without its number, `max-stale` accepts any staleness, and
      the other three numbers stay absent. */
  function Alone(name: string): (d: Directives)
  {
    match name
    case "no-cache" => ABSENT.(noCache := true)
    case "no-store" => ABSENT.(noStore := true)
    case "private" => ABSENT.(isPrivate := true)
    case "public" => ABSENT.(isPublic := true)
    case "must-revalidate" => ABSENT.(mustRevalidate := true)
    case "max-stale" => ABSENT.(maxStale := 2147483647)
    case "only-if-cached" => ABSENT.(onlyIfCached := true)
    case "no-transform" => ABSENT.(noTransform := true)
    case "immutable" => ABSENT.(immutable := true)
    case _ => ABSENT // "max-age", "s-maxage", "min-fresh", and names that are not known
  }

  lemma AloneIsSet(n: Name)
    ensures Alone(NameText(n)) == Set(ABSENT, n, None)
  {
  }

  lemma SpelledWell(s: string, n: Name)
    requires EqualsIgnoreCase(s, NameText(n))
    ensures Edged(s) && Free(s, "=,;")
  {
    NameShape(n);
    NameLowerCase(n);
    hide NameText;
  }

  /** Each of the twelve names by itself, in any letter case, in either header. */
  lemma AloneIsRead(header: string, s: string, n: Name)
    requires EqualsIgnoreCase(header, "cache-control") || EqualsIgnoreCase(header, "pragma")
    requires EqualsIgnoreCase(s, NameText(n))
    ensures ParseHeaders(ABSENT, [(header, s)]) == Alone(NameText(n))
  {
    hide DirectivesOf, EqualsIgnoreCase, ParseHeaders, NameText, Lookup, Set, Alone, Free, Trim;
    SpelledWell(s, n);
    assert "" + s + "" == s && s + "" == s;
    OneBlank();
    TrimBlanks("", s, "");
    ReadBare(s, s, "");
    NothingWritten();
    OneHeader(header, s);
    HeadersFold(ABSENT, [(header, s)]);
    LookupName(s, n);
    AloneIsSet(n);
    assert DirectivesOf(s) == [Directive(s, None)];
  }
}
