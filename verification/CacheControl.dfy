/** `CacheControl`: the parser of Cache-Control and Pragma headers, and the printer that undoes it
    (section 5.2 of RFC 7234). */
module CacheControl {
  import opened Text

  const MAX_INT := 0x7fff_ffff
  const MAX_LONG := 0x7fff_ffff_ffff_ffff

  datatype Name =
    | NoCache | NoStore | MaxAge | SMaxAge | Private | Public | MustRevalidate | MaxStale | MinFresh
    | OnlyIfCached | NoTransform | Immutable

  /** The twelve fields; -1 is "absent" for the numbers. */
  datatype Directives = Directives(
    noCache: bool, noStore: bool, maxAge: int, sMaxAge: int, isPrivate: bool, isPublic: bool, mustRevalidate: bool,
    maxStale: int, minFresh: int, onlyIfCached: bool, noTransform: bool, immutable: bool)

  const ABSENT := Directives(false, false, -1, -1, false, false, false, -1, -1, false, false, false)

  function NameText(n: Name): (r: string)
  {
    match n
    case NoCache => "no-cache" case NoStore => "no-store" case MaxAge => "max-age" case SMaxAge => "s-maxage"
    case Private => "private" case Public => "public" case MustRevalidate => "must-revalidate"
    case MaxStale => "max-stale" case MinFresh => "min-fresh" case OnlyIfCached => "only-if-cached"
    case NoTransform => "no-transform" case Immutable => "immutable"
  }

  // ---------------------------------------------------------------- tokens

  /** `String.trim`. */
  function Trim(s: string): (r: string)
  {
    if s != "" && s[0] <= ' ' then Trim(s[1..])
    else if s != "" && s[|s| - 1] <= ' ' then Trim(s[..|s| - 1])
    else s
  }

  /** How many blanks `HttpHeaders.skipWhitespace` skips. */
  function Blanks(s: string): (r: nat)
    ensures r <= |s|
  {
    if s != "" && (s[0] == ' ' || s[0] == '\t') then 1 + Blanks(s[1..]) else 0
  }

  /** `HttpHeaders.parseSeconds`; `None` is the null that `Long.parseLong` refuses. */
  function ParseSeconds(value: Option<string>, default: int): (r: int)
    ensures 0 <= r <= MAX_INT || r == default
  {
    if value.None? then default
    else
      var n := ParseInteger(value.value);
      if n.None? || n.value > MAX_LONG || n.value < -MAX_LONG - 1 then default
      else if n.value > MAX_INT then MAX_INT
      else if n.value < 0 then 0
      else n.value
  }

  /** One turn of the inner loop: the directive, its parameter, and how much was consumed. */
  datatype Token = Token(directive: string, parameter: Option<string>, next: nat)

  function NextToken(s: string): (r: Token)
    requires s != ""
    ensures 0 < r.next <= |s|
  {
    var t := FirstOf(s, "=,;");
    var directive := Trim(s[..t]);
    if t == |s| then Token(directive, None, |s|)
    else if s[t] == ',' || s[t] == ';' then Token(directive, None, t + 1)
    else
      var (parameter, n) := ReadParameter(s[t + 1..]);
      Token(directive, Some(parameter), t + 1 + n)
  }

  /** What follows the '=': a quoted string, or text up to the next separator. */
  function ReadParameter(s: string): (r: (string, nat))
    ensures r.1 <= |s|
  {
    var w := Blanks(s);
    if w < |s| && s[w] == '"' then
      var e := w + 1 + FirstOf(s[w + 1..], "\"");
      (s[w + 1..e], if e < |s| then e + 1 else e)
    else
      var e := w + FirstOf(s[w..], ",;");
      (Trim(s[w..e]), e)
  }

  function Lookup(directive: string): (r: Option<Name>)
  {
    if EqualsIgnoreCase(directive, "no-cache") then Some(NoCache)
    else if EqualsIgnoreCase(directive, "no-store") then Some(NoStore)
    else if EqualsIgnoreCase(directive, "max-age") then Some(MaxAge)
    else if EqualsIgnoreCase(directive, "s-maxage") then Some(SMaxAge)
    else if EqualsIgnoreCase(directive, "private") then Some(Private)
    else if EqualsIgnoreCase(directive, "public") then Some(Public)
    else if EqualsIgnoreCase(directive, "must-revalidate") then Some(MustRevalidate)
    else if EqualsIgnoreCase(directive, "max-stale") then Some(MaxStale)
    else if EqualsIgnoreCase(directive, "min-fresh") then Some(MinFresh)
    else if EqualsIgnoreCase(directive, "only-if-cached") then Some(OnlyIfCached)
    else if EqualsIgnoreCase(directive, "no-transform") then Some(NoTransform)
    else if EqualsIgnoreCase(directive, "immutable") then Some(Immutable)
    else None
  }

  function Set(d: Directives, name: Name, parameter: Option<string>): (r: Directives)
  {
    match name
    case NoCache => d.(noCache := true)
    case NoStore => d.(noStore := true)
    case MaxAge => d.(maxAge := ParseSeconds(parameter, -1))
    case SMaxAge => d.(sMaxAge := ParseSeconds(parameter, -1))
    case Private => d.(isPrivate := true)
    case Public => d.(isPublic := true)
    case MustRevalidate => d.(mustRevalidate := true)
    case MaxStale => d.(maxStale := ParseSeconds(parameter, MAX_INT))
    case MinFresh => d.(minFresh := ParseSeconds(parameter, -1))
    case OnlyIfCached => d.(onlyIfCached := true)
    case NoTransform => d.(noTransform := true)
    case Immutable => d.(immutable := true)
  }

  function Apply(d: Directives, directive: string, parameter: Option<string>): (r: Directives)
  {
    var name := Lookup(directive);
    if name.None? then d else Set(d, name.value, parameter)
  }

  /** One header value, token by token. */
  function ParseValue(d: Directives, s: string): (r: Directives)
    decreases |s|
  {
    if s == "" then d
    else
      var t := NextToken(s);
      ParseValue(Apply(d, t.directive, t.parameter), s[t.next..])
  }

  // ---------------------------------------------------------------- headers

  type Headers = seq<(string, string)>

  predicate IsCacheControl(h: (string, string)) { EqualsIgnoreCase(h.0, "cache-control") }

  predicate IsPragma(h: (string, string)) { !IsCacheControl(h) && EqualsIgnoreCase(h.0, "pragma") }

  function ParseHeaders(d: Directives, headers: Headers): (r: Directives)
    decreases |headers|
  {
    if headers == [] then d
    else
      var h := headers[0];
      ParseHeaders(if IsCacheControl(h) || IsPragma(h) then ParseValue(d, h.1) else d, headers[1..])
  }

  /** Header `i` is a Cache-Control header, and there is no other one and no Pragma. */
  predicate Only(headers: Headers, i: nat)
  {
    && i < |headers| && IsCacheControl(headers[i])
    && forall j :: 0 <= j < |headers| && j != i ==> !IsCacheControl(headers[j]) && !IsPragma(headers[j])
  }

  /** The raw value is kept exactly when one header stands for all. */
  ghost predicate StandsForAll(headers: Headers, raw: Option<string>)
  {
    && (raw.Some? <==> exists i: nat :: Only(headers, i))
    && (forall i: nat :: Only(headers, i) ==> raw == Some(headers[i].1))
  }

  // ---------------------------------------------------------------- printing

  datatype Item = Item(name: Name, seconds: Option<int>)

  function Flag(b: bool, name: Name): (r: seq<Item>) { if b then [Item(name, None)] else [] }

  function Number(n: int, name: Name): (r: seq<Item>) { if n != -1 then [Item(name, Some(n))] else [] }

  function FrontItems(d: Directives): (r: seq<Item>)
  {
    Flag(d.noCache, NoCache) + Flag(d.noStore, NoStore) + Number(d.maxAge, MaxAge) + Number(d.sMaxAge, SMaxAge)
    + Flag(d.isPrivate, Private) + Flag(d.isPublic, Public)
  }

  function MiddleItems(d: Directives): (r: seq<Item>)
  {
    Flag(d.mustRevalidate, MustRevalidate) + Number(d.maxStale, MaxStale) + Number(d.minFresh, MinFresh)
  }

  function LastItems(d: Directives): (r: seq<Item>)
  {
    Flag(d.onlyIfCached, OnlyIfCached) + Flag(d.noTransform, NoTransform) + Flag(d.immutable, Immutable)
  }

  /** What is printed, in order. */
  function Items(d: Directives): (r: seq<Item>) { FrontItems(d) + MiddleItems(d) + LastItems(d) }

  function ItemText(i: Item): (r: string)
  {
    NameText(i.name) + if i.seconds.Some? then "=" + PrintInt(i.seconds.value) else ""
  }

  function Joined(items: seq<Item>): (r: string)
  {
    if items == [] then "" else if |items| == 1 then ItemText(items[0])
    else ItemText(items[0]) + ", " + Joined(items[1..])
  }

  // ---------------------------------------------------------------- the printer undone

  /** A directive matches one name at most, whatever its letter case. */
  lemma OneSpelling(x: string, a: string, b: string)
    requires EqualsIgnoreCase(x, a) && EqualsIgnoreCase(x, b) && LowerCase(a) && LowerCase(b)
    ensures a == b
  {
    forall i | 0 <= i < |a|
      ensures a[i] == b[i]
    {
      OneLetter(x[i], a[i], b[i]);
    }
  }

  predicate LowerCase(s: string) { forall i :: 0 <= i < |s| ==> s[i] == '-' || 'a' <= s[i] <= 'z' }

  lemma OneLetter(c: char, p: char, q: char)
    requires SameLetter(c, p) && SameLetter(c, q)
    requires (p == '-' || 'a' <= p <= 'z') && (q == '-' || 'a' <= q <= 'z')
    ensures p == q
  {
  }

  lemma NamesDiffer(a: Name, b: Name)
    requires NameText(a) == NameText(b)
    ensures a == b
  {
    var s, t := NameText(a), NameText(b);
    assert |s| == |t|;
    assert |s| >= 5 ==> s[0] == t[0] && s[1] == t[1] && s[3] == t[3];
  }

  lemma NameLowerCase(n: Name)
    ensures LowerCase(NameText(n))
  {
    forall i | 0 <= i < |NameText(n)|
      ensures NameText(n)[i] == '-' || 'a' <= NameText(n)[i] <= 'z'
    {
      NameLetters(n, i);
    }
  }

  lemma MatchesOne(x: string, n: Name, m: Name)
    requires EqualsIgnoreCase(x, NameText(n))
    ensures EqualsIgnoreCase(x, NameText(m)) <==> m == n
  {
    hide NameText, EqualsIgnoreCase, LowerCase;
    if EqualsIgnoreCase(x, NameText(m)) {
      NameLowerCase(n);
      NameLowerCase(m);
      OneSpelling(x, NameText(n), NameText(m));
      NamesDiffer(n, m);
    }
  }

  lemma LookupSound(x: string)
    ensures Lookup(x).Some? ==> EqualsIgnoreCase(x, NameText(Lookup(x).value))
  {
    hide EqualsIgnoreCase;
  }

  lemma LookupComplete(x: string, n: Name)
    requires Lookup(x).None?
    ensures !EqualsIgnoreCase(x, NameText(n))
  {
    hide EqualsIgnoreCase;
  }

  /** A directive is recognised as a name exactly when it spells the name, in any letter case. */
  lemma LookupName(x: string, n: Name)
    ensures Lookup(x) == Some(n) <==> EqualsIgnoreCase(x, NameText(n))
  {
    hide EqualsIgnoreCase, Lookup, NameText;
    LookupSound(x);
    if Lookup(x).None? {
      LookupComplete(x, n);
    } else {
      MatchesOne(x, Lookup(x).value, n);
    }
  }

  lemma LookupOwnName(n: Name)
    ensures Lookup(NameText(n)) == Some(n)
  {
    NameLowerCase(n);
    assert EqualsIgnoreCase(NameText(n), NameText(n));
    LookupName(NameText(n), n);
  }

  lemma NameEnds(n: Name)
    ensures var s := NameText(n); s != "" && s[0] > ' ' && s[|s| - 1] > ' '
  {
  }

  lemma NameFree(n: Name)
    ensures Free(NameText(n), "=,;")
  {
    var s := NameText(n);
    forall i | 0 <= i < |s|
      ensures s[i] !in "=,;"
    {
      assert s[i] == '-' || 'a' <= s[i] <= 'z' by { NameLetters(n, i); }
    }
  }

  lemma NameLetters(n: Name, i: nat)
    requires i < |NameText(n)|
    ensures NameText(n)[i] == '-' || 'a' <= NameText(n)[i] <= 'z'
  {
  }

  lemma NameShape(n: Name)
    ensures var s := NameText(n); s != "" && s[0] > ' ' && s[|s| - 1] > ' ' && Free(s, "=,;")
  {
    hide NameText, Free;
    NameEnds(n);
    NameFree(n);
  }

  lemma TrimPadded(pad: string, s: string)
    requires pad == "" || pad == " "
    requires s != "" && s[0] > ' ' && s[|s| - 1] > ' '
    ensures Trim(pad + s) == s
  {
  }

  lemma FirstAt(a: string, b: string, delims: string)
    requires Free(a, delims) && (b == "" || b[0] in delims)
    ensures FirstOf(a + b, delims) == |a|
  {
    var s, r := a + b, FirstOf(a + b, delims);
    assert forall i :: 0 <= i < |a| ==> s[i] == a[i];
    assert b != "" ==> s[|a|] == b[0];
  }

  /** What one printed item reads as. */
  function ApplyItem(d: Directives, i: Item): (r: Directives)
  {
    Set(d, i.name, if i.seconds.Some? then Some(PrintInt(i.seconds.value)) else None)
  }

  lemma ReadFlag(d: Directives, pad: string, n: Name, tail: string)
    requires pad == "" || pad == " "
    requires tail == "" || tail[0] == ','
    ensures ParseValue(d, pad + NameText(n) + tail)
         == ParseValue(Set(d, n, None), if tail == "" then "" else tail[1..])
  {
    hide NameText, Lookup, Trim, Set, FirstOf;
    NameShape(n);
    LookupOwnName(n);
    var head := pad + NameText(n);
    var s := head + tail;
    assert Free(head, "=,;");
    FirstAt(head, tail, "=,;");
    assert s[..|head|] == head;
    TrimPadded(pad, NameText(n));
    var t := NextToken(s);
    assert t == Token(NameText(n), None, if tail == "" then |s| else |head| + 1);
    assert s[t.next..] == if tail == "" then "" else tail[1..];
  }

  lemma DigitsShape(n: nat)
    ensures var s := PrintNat(n);
            s != "" && s[0] > ' ' && s[|s| - 1] > ' ' && s[0] != '"' && Free(s, ",;") && Blanks(s) == 0
  {
  }

  lemma ReadDigits(v: nat, tail: string)
    requires tail == "" || tail[0] == ','
    ensures ReadParameter(PrintNat(v) + tail) == (PrintNat(v), |PrintNat(v)|)
  {
    hide Trim, FirstOf, PrintNat;
    DigitsShape(v);
    var digits := PrintNat(v);
    var s := digits + tail;
    FirstAt(digits, tail, ",;");
    assert s[0] == digits[0];
    assert Blanks(s) == 0;
    assert s[0..] == s && s[0..|digits|] == digits && "" + digits == digits;
    TrimPadded("", digits);
  }

  /** The token that `name=digits` makes; the comma after it is left for the next turn. */
  lemma NumberToken(pad: string, n: Name, v: nat, tail: string)
    requires pad == "" || pad == " "
    requires tail == "" || tail[0] == ','
    ensures var body := pad + NameText(n) + "=" + PrintNat(v);
            body + tail != "" && NextToken(body + tail) == Token(NameText(n), Some(PrintNat(v)), |body|)
  {
    hide NameText, Trim, FirstOf, PrintNat, ReadParameter;
    NameShape(n);
    var head, digits := pad + NameText(n), PrintNat(v);
    var after := "=" + (digits + tail);
    FirstAt(head, after, "=,;");
    hide Free;
    var s := head + "=" + digits + tail;
    assert s == head + after;
    assert s[..|head|] == head && s[|head|] == '=' && s[|head| + 1..] == digits + tail;
    TrimPadded(pad, NameText(n));
    ReadDigits(v, tail);
  }

  lemma ReadNumber(d: Directives, pad: string, n: Name, v: nat, tail: string)
    requires pad == "" || pad == " "
    requires tail == "" || tail[0] == ','
    ensures ParseValue(d, pad + NameText(n) + "=" + PrintNat(v) + tail)
         == ParseValue(Set(d, n, Some(PrintNat(v))), if tail == "" then "" else tail[1..])
  {
    hide NameText, Lookup, Set, NextToken, PrintNat;
    NumberToken(pad, n, v, tail);
    LookupOwnName(n);
    var body := pad + NameText(n) + "=" + PrintNat(v);
    assert (body + tail)[|body|..] == tail;
    if tail != "" {
      CommaSkipped(Set(d, n, Some(PrintNat(v))), tail);
    }
  }

  /** A comma by itself is an empty directive. */
  lemma CommaSkipped(d: Directives, tail: string)
    requires tail != "" && tail[0] == ','
    ensures ParseValue(d, tail) == ParseValue(d, tail[1..])
  {
  }

  predicate Printable(i: Item) { i.seconds.Some? ==> i.seconds.value >= 0 }

  lemma ReadItem(d: Directives, pad: string, i: Item, tail: string)
    requires pad == "" || pad == " "
    requires tail == "" || tail[0] == ','
    requires Printable(i)
    ensures ParseValue(d, pad + ItemText(i) + tail) == ParseValue(ApplyItem(d, i), if tail == "" then "" else tail[1..])
  {
    hide NameText, ParseValue, Set;
    if i.seconds.None? {
      assert ItemText(i) == NameText(i.name);
      ReadFlag(d, pad, i.name, tail);
    } else {
      assert pad + ItemText(i) + tail == pad + NameText(i.name) + "=" + PrintNat(i.seconds.value) + tail;
      ReadNumber(d, pad, i.name, i.seconds.value, tail);
    }
  }

  function ApplyAll(d: Directives, items: seq<Item>): (r: Directives)
    decreases |items|
  {
    if items == [] then d else ApplyAll(ApplyItem(d, items[0]), items[1..])
  }

  lemma {:induction false} ReadJoined(d: Directives, pad: string, items: seq<Item>)
    requires pad == "" || pad == " "
    requires items != [] && forall k :: 0 <= k < |items| ==> Printable(items[k])
    ensures ParseValue(d, pad + Joined(items)) == ApplyAll(d, items)
    decreases |items|
  {
    hide ParseValue, ItemText, ApplyItem;
    var i := items[0];
    if |items| == 1 {
      ReadItem(d, pad, i, "");
      assert pad + ItemText(i) + "" == pad + ItemText(i);
      ParseEmpty(ApplyItem(d, i));
      assert items[1..] == [];
    } else {
      var rest := Joined(items[1..]);
      var tail := ", " + rest;
      ReadItem(d, pad, i, tail);
      assert pad + ItemText(i) + tail == pad + (ItemText(i) + ", " + rest);
      assert tail[1..] == " " + rest;
      ReadJoined(ApplyItem(d, i), " ", items[1..]);
    }
  }

  lemma ParseEmpty(d: Directives)
    ensures ParseValue(d, "") == d
  {
  }

  // ---------------------------------------------------------------- the fields restored

  predicate InRange(d: Directives)
  {
    -1 <= d.maxAge <= MAX_INT && -1 <= d.sMaxAge <= MAX_INT
    && -1 <= d.maxStale <= MAX_INT && -1 <= d.minFresh <= MAX_INT
  }

  lemma {:induction false} ApplyConcat(d: Directives, a: seq<Item>, b: seq<Item>)
    ensures ApplyAll(d, a + b) == ApplyAll(ApplyAll(d, a), b)
    decreases |a|
  {
    if a == [] {
      assert a + b == b;
    } else {
      assert (a + b)[1..] == a[1..] + b;
      ApplyConcat(ApplyItem(d, a[0]), a[1..], b);
    }
  }

  lemma ApplyOne(d: Directives, i: Item)
    ensures ApplyAll(d, [i]) == ApplyItem(d, i) && ApplyAll(d, []) == d
  {
  }

  /** `parseSeconds` of a printed number: negative numbers read as 0, numbers beyond an int as its maximum,
      and numbers beyond a long as the default. */
  lemma SecondsBack(v: int, default: int)
    ensures ParseSeconds(Some(PrintInt(v)), default)
         == if v > MAX_LONG || v < -MAX_LONG - 1 then default else if v > MAX_INT then MAX_INT
            else if v < 0 then 0 else v
  {
    ParsePrintInt(v);
  }

  /** Reading the item printed for one field sets that field. */
  lemma FlagBack(d: Directives, b: bool, n: Name)
    ensures ApplyAll(d, Flag(b, n)) == if b then Set(d, n, None) else d
  {
  }

  lemma NumberBack(d: Directives, v: int, n: Name)
    ensures ApplyAll(d, Number(v, n)) == if v != -1 then Set(d, n, Some(PrintInt(v))) else d
  {
  }

  lemma FrontBack(d: Directives)
    requires InRange(d)
    ensures ApplyAll(ABSENT, FrontItems(d))
         == ABSENT.(noCache := d.noCache, noStore := d.noStore, maxAge := d.maxAge, sMaxAge := d.sMaxAge,
                    isPrivate := d.isPrivate, isPublic := d.isPublic)
  {
    hide ApplyAll, Flag, Number, ParseSeconds, PrintInt;
    var a := Flag(d.noCache, NoCache);
    FlagBack(ABSENT, d.noCache, NoCache);
    var d1 := ApplyAll(ABSENT, a);
    ApplyConcat(ABSENT, a, Flag(d.noStore, NoStore));
    FlagBack(d1, d.noStore, NoStore);
    var b := a + Flag(d.noStore, NoStore);
    var d2 := ApplyAll(ABSENT, b);
    ApplyConcat(ABSENT, b, Number(d.maxAge, MaxAge));
    NumberBack(d2, d.maxAge, MaxAge);
    if d.maxAge >= 0 { SecondsBack(d.maxAge, -1); }
    var c := b + Number(d.maxAge, MaxAge);
    var d3 := ApplyAll(ABSENT, c);
    ApplyConcat(ABSENT, c, Number(d.sMaxAge, SMaxAge));
    NumberBack(d3, d.sMaxAge, SMaxAge);
    if d.sMaxAge >= 0 { SecondsBack(d.sMaxAge, -1); }
    var e := c + Number(d.sMaxAge, SMaxAge);
    var d4 := ApplyAll(ABSENT, e);
    ApplyConcat(ABSENT, e, Flag(d.isPrivate, Private));
    FlagBack(d4, d.isPrivate, Private);
    var f := e + Flag(d.isPrivate, Private);
    ApplyConcat(ABSENT, f, Flag(d.isPublic, Public));
    FlagBack(ApplyAll(ABSENT, f), d.isPublic, Public);
  }

  lemma MiddleBack(base: Directives, d: Directives)
    requires InRange(d) && !base.mustRevalidate && base.maxStale == -1 && base.minFresh == -1
    ensures ApplyAll(base, MiddleItems(d))
         == base.(mustRevalidate := d.mustRevalidate, maxStale := d.maxStale, minFresh := d.minFresh)
  {
    hide ApplyAll, Flag, Number, ParseSeconds, PrintInt;
    var a := Flag(d.mustRevalidate, MustRevalidate);
    FlagBack(base, d.mustRevalidate, MustRevalidate);
    ApplyConcat(base, a, Number(d.maxStale, MaxStale));
    NumberBack(ApplyAll(base, a), d.maxStale, MaxStale);
    if d.maxStale >= 0 { SecondsBack(d.maxStale, MAX_INT); }
    var b := a + Number(d.maxStale, MaxStale);
    ApplyConcat(base, b, Number(d.minFresh, MinFresh));
    NumberBack(ApplyAll(base, b), d.minFresh, MinFresh);
    if d.minFresh >= 0 { SecondsBack(d.minFresh, -1); }
  }

  lemma LastBack(base: Directives, d: Directives)
    requires !base.onlyIfCached && !base.noTransform && !base.immutable
    ensures ApplyAll(base, LastItems(d))
         == base.(onlyIfCached := d.onlyIfCached, noTransform := d.noTransform, immutable := d.immutable)
  {
    hide ApplyAll, Flag;
    var a := Flag(d.onlyIfCached, OnlyIfCached);
    FlagBack(base, d.onlyIfCached, OnlyIfCached);
    ApplyConcat(base, a, Flag(d.noTransform, NoTransform));
    FlagBack(ApplyAll(base, a), d.noTransform, NoTransform);
    var b := a + Flag(d.noTransform, NoTransform);
    ApplyConcat(base, b, Flag(d.immutable, Immutable));
    FlagBack(ApplyAll(base, b), d.immutable, Immutable);
  }

  /** Reading all the printed items restores all the fields. */
  lemma ItemsBack(d: Directives)
    requires InRange(d)
    ensures ApplyAll(ABSENT, Items(d)) == d
  {
    hide ApplyAll, FrontItems, MiddleItems, LastItems;
    FrontBack(d);
    var front := ApplyAll(ABSENT, FrontItems(d));
    MiddleBack(front, d);
    ApplyConcat(ABSENT, FrontItems(d), MiddleItems(d));
    LastBack(ApplyAll(front, MiddleItems(d)), d);
    ApplyConcat(ABSENT, FrontItems(d) + MiddleItems(d), LastItems(d));
  }

  lemma FrontPrintable(d: Directives, i: Item)
    requires InRange(d) && i in FrontItems(d)
    ensures Printable(i)
  {
  }

  lemma MiddlePrintable(d: Directives, i: Item)
    requires InRange(d) && i in MiddleItems(d)
    ensures Printable(i)
  {
  }

  lemma LastPrintable(d: Directives, i: Item)
    requires i in LastItems(d)
    ensures Printable(i)
  {
  }

  lemma ItemsPrintable(d: Directives, i: Item)
    requires InRange(d) && i in Items(d)
    ensures Printable(i)
  {
    hide FrontItems, MiddleItems, LastItems, Printable, InRange;
    if i in FrontItems(d) {
      FrontPrintable(d, i);
    } else if i in MiddleItems(d) {
      MiddlePrintable(d, i);
    } else {
      LastPrintable(d, i);
    }
  }

  /** The regenerated header value reads back as the same twelve fields, for every value of them that
      a parse or a builder can produce. */
  lemma PrintedReadsBack(d: Directives)
    requires InRange(d)
    ensures ParseValue(ABSENT, Joined(Items(d))) == d
  {
    var items := Items(d);
    hide ParseValue, Items, ApplyAll, ItemText, Printable;
    ItemsBack(d);
    if items == [] {
      ApplyOne(ABSENT, Item(NoCache, None));
      ParseEmpty(ABSENT);
    } else {
      forall k | 0 <= k < |items|
        ensures Printable(items[k])
      {
        ItemsPrintable(d, items[k]);
      }
      ReadJoined(ABSENT, "", items);
      assert "" + Joined(items) == Joined(items);
    }
  }

  // ---------------------------------------------------------------- parse and toString

  lemma ApplyInRange(d: Directives, directive: string, parameter: Option<string>)
    requires InRange(d)
    ensures InRange(Apply(d, directive, parameter))
  {
    hide Lookup, Set, InRange;
    if Lookup(directive).Some? {
      SetInRange(d, Lookup(directive).value, parameter);
    }
  }

  lemma SetInRange(d: Directives, name: Name, parameter: Option<string>)
    requires InRange(d)
    ensures InRange(Set(d, name, parameter))
  {
    hide ParseSeconds;
  }

  lemma {:induction false} ParseInRange(d: Directives, s: string)
    requires InRange(d)
    ensures InRange(ParseValue(d, s))
    decreases |s|
  {
    if s != "" {
      hide Apply, NextToken;
      var t := NextToken(s);
      ApplyInRange(d, t.directive, t.parameter);
      ParseInRange(Apply(d, t.directive, t.parameter), s[t.next..]);
    }
  }

  lemma {:induction false} HeadersInRange(d: Directives, headers: Headers)
    requires InRange(d)
    ensures InRange(ParseHeaders(d, headers))
    decreases |headers|
  {
    if headers != [] {
      hide ParseValue, InRange, EqualsIgnoreCase;
      ParseInRange(d, headers[0].1);
      HeadersInRange(if IsCacheControl(headers[0]) || IsPragma(headers[0]) then ParseValue(d, headers[0].1) else d,
                     headers[1..]);
    }
  }

  /** Headers that are neither Cache-Control nor Pragma say nothing. */
  lemma {:induction false} OthersIgnored(d: Directives, headers: Headers)
    requires forall j :: 0 <= j < |headers| ==> !IsCacheControl(headers[j]) && !IsPragma(headers[j])
    ensures ParseHeaders(d, headers) == d
    decreases |headers|
  {
    if headers != [] {
      OthersIgnored(d, headers[1..]);
    }
  }

  lemma {:induction false} OnlyOneCounts(d: Directives, headers: Headers, i: nat)
    requires i < |headers| && IsCacheControl(headers[i])
    requires forall j :: 0 <= j < |headers| && j != i ==> !IsCacheControl(headers[j]) && !IsPragma(headers[j])
    ensures ParseHeaders(d, headers) == ParseValue(d, headers[i].1)
    decreases |headers|
  {
    hide ParseValue, EqualsIgnoreCase;
    if i == 0 {
      OthersIgnored(ParseValue(d, headers[0].1), headers[1..]);
    } else {
      OnlyOneCounts(d, headers[1..], i - 1);
    }
  }

  /** `toString`: the raw header when it stands for all of them, else the regenerated one. */
  function Printed(d: Directives, raw: Option<string>): (r: string)
  {
    if raw.Some? then raw.value else Joined(Items(d))
  }

  /** For every list of headers, reading the printed text as a single Cache-Control header gives the same
      twelve fields, whether the text is the raw header or was regenerated. */
  lemma RoundTrip(headers: Headers, raw: Option<string>)
    requires StandsForAll(headers, raw)
    ensures var d := ParseHeaders(ABSENT, headers);
            ParseHeaders(ABSENT, [("Cache-Control", Printed(d, raw))]) == d
  {
    hide ParseValue, ParseHeaders, Joined, Items;
    var d := ParseHeaders(ABSENT, headers);
    var single := [("Cache-Control", Printed(d, raw))];
    assert IsCacheControl(single[0]);
    OnlyOneCounts(ABSENT, single, 0);
    if raw.Some? {
      var i: nat :| Only(headers, i);
      OnlyOneCounts(ABSENT, headers, i);
    } else {
      HeadersInRange(ABSENT, headers);
      PrintedReadsBack(d);
    }
  }

  // ---------------------------------------------------------------- the code

  /** The loop of `HttpHeaders.skipWhitespace`. */
  method SkipWhitespace(input: string, start: nat) returns (pos: nat)
    requires start <= |input|
    ensures pos == start + Blanks(input[start..])
  {
    pos := start;
    while pos < |input| && (input[pos] == ' ' || input[pos] == '\t')
      invariant start <= pos <= |input|
      invariant start + Blanks(input[start..]) == pos + Blanks(input[pos..])
    {
      assert input[pos..][1..] == input[pos + 1..];
      pos := pos + 1;
    }
  }

  /** The parameter branch of the inner loop, from just after the '='. */
  method ScanParameter(value: string, start: nat) returns (parameter: string, pos: nat)
    requires start <= |value|
    ensures start <= pos <= |value| + 1
    ensures (parameter, Clamp(pos, |value|) - start) == ReadParameter(value[start..])
  {
    hide Trim, FirstOf, Blanks;
    ghost var s := value[start..];
    pos := SkipWhitespace(value, start);
    ghost var w := pos - start;
    assert w < |s| ==> s[w] == value[pos];
    if pos < |value| && value[pos] == '"' {
      pos := pos + 1;
      var parameterStart := pos;
      assert value[pos..|value|] == s[w + 1..];
      pos := DelimiterOffset(value, pos, |value|, "\"");
      parameter := value[parameterStart..pos];
      assert parameter == s[w + 1..pos - start];
      pos := pos + 1;
    } else {
      var parameterStart := pos;
      assert value[pos..|value|] == s[w..];
      pos := DelimiterOffset(value, pos, |value|, ",;");
      assert value[parameterStart..pos] == s[w..pos - start];
      parameter := Trim(value[parameterStart..pos]);
    }
  }

  function Clamp(pos: nat, limit: nat): (r: nat) { if pos > limit then limit else pos }

  /** The scanning half of one turn of the inner loop. */
  method ScanToken(value: string, start: nat) returns (directive: string, parameter: Option<string>, pos: nat)
    requires start < |value|
    ensures start < pos <= |value| + 1
    ensures Token(directive, parameter, Clamp(pos, |value|) - start) == NextToken(value[start..])
  {
    hide Trim, FirstOf, ReadParameter;
    ghost var s := value[start..];
    assert value[start..|value|] == s;
    pos := DelimiterOffset(value, start, |value|, "=,;");
    assert value[start..pos] == s[..pos - start];
    assert pos < |value| ==> s[pos - start] == value[pos];
    directive := Trim(value[start..pos]);
    if pos == |value| || value[pos] == ',' || value[pos] == ';' {
      pos := pos + 1;
      parameter := None;
    } else {
      pos := pos + 1;
      assert value[pos..] == s[pos - start..];
      var text;
      text, pos := ScanParameter(value, pos);
      parameter := Some(text);
    }
  }

  /** The inner loop of `parse`; it advances on every turn. */
  method ParseOne(start: Directives, value: string) returns (d: Directives)
    ensures d == ParseValue(start, value)
  {
    d := start;
    var pos := 0;
    assert value[0..] == value;
    hide ParseValue, Apply, NextToken;
    while pos < |value|
      invariant pos <= |value| + 1
      invariant ParseValue(start, value) == ParseValue(d, value[Clamp(pos, |value|)..])
      decreases |value| + 1 - pos
    {
      ghost var s, was := value[pos..], pos;
      ParseStep(d, s);
      var directive, parameter;
      directive, parameter, pos := ScanToken(value, pos);
      assert s[NextToken(s).next..] == value[Clamp(pos, |value|)..];
      d := Apply(d, directive, parameter);
    }
    ParseEmpty(d);
  }

  lemma ParseStep(d: Directives, s: string)
    requires s != ""
    ensures var t := NextToken(s);
            ParseValue(d, s) == ParseValue(Apply(d, t.directive, t.parameter), s[t.next..])
  {
  }

  /** The outer loop of `parse`: the fields, and the raw header value when it may be reused. */
  method Parse(headers: Headers) returns (d: Directives, headerValue: Option<string>)
    ensures d == ParseHeaders(ABSENT, headers)
    ensures StandsForAll(headers, headerValue)
    ensures InRange(d)
  {
    hide ParseValue, EqualsIgnoreCase, InRange, ParseHeaders;
    d, headerValue := ABSENT, None;
    var canUseHeaderValue := true;
    ghost var at, bad := 0, 0;
    assert headers[0..] == headers;
    for i := 0 to |headers|
      invariant ParseHeaders(ABSENT, headers) == ParseHeaders(d, headers[i..])
      invariant canUseHeaderValue && headerValue.None? ==> Others(headers, i, i)
      invariant canUseHeaderValue && headerValue.Some? ==>
                  at < i && IsCacheControl(headers[at]) && headers[at].1 == headerValue.value && Others(headers, i, at)
      invariant headerValue.Some? ==> at < i && IsCacheControl(headers[at])
      invariant !canUseHeaderValue ==>
                  bad < i && (IsPragma(headers[bad]) || (headerValue.Some? && at < bad && IsCacheControl(headers[bad])))
    {
      var name, value := headers[i].0, headers[i].1;
      HeadersStep(d, headers[i..]);
      assert headers[i..][1..] == headers[i + 1..];
      if EqualsIgnoreCase(name, "cache-control") {
        if headerValue.Some? {
          if canUseHeaderValue {
            bad := i;
          }
          canUseHeaderValue := false;
        } else {
          headerValue := Some(value);
          at := i;
        }
      } else if EqualsIgnoreCase(name, "pragma") {
        bad := i;
        canUseHeaderValue := false;
      } else {
        continue;
      }
      d := ParseOne(d, value);
    }
    if !canUseHeaderValue {
      headerValue := None;
      assert forall i: nat :: !Only(headers, i);
    } else if headerValue.Some? {
      assert Only(headers, at);
    }
    HeadersEnd(d);
    HeadersInRangeFromAbsent(headers);
  }

  /** Of the first `n` headers, only number `at` can be a Cache-Control or Pragma header. */
  predicate Others(headers: Headers, n: nat, at: nat)
    requires n <= |headers|
  {
    forall j :: 0 <= j < n && j != at ==> !IsCacheControl(headers[j]) && !IsPragma(headers[j])
  }

  lemma HeadersStep(d: Directives, headers: Headers)
    requires headers != []
    ensures var h := headers[0];
            ParseHeaders(d, headers)
            == ParseHeaders(if IsCacheControl(h) || IsPragma(h) then ParseValue(d, h.1) else d, headers[1..])
  {
  }

  lemma HeadersEnd(d: Directives)
    ensures ParseHeaders(d, []) == d
  {
  }

  lemma HeadersInRangeFromAbsent(headers: Headers)
    ensures InRange(ParseHeaders(ABSENT, headers))
  {
    HeadersInRange(ABSENT, headers);
  }

  /** The text that `headerValue` has built after some items: each is followed by ", ". */
  function Appended(items: seq<Item>): (r: string)
  {
    if items == [] then "" else ItemText(items[0]) + ", " + Appended(items[1..])
  }

  lemma {:induction false} AppendedConcat(a: seq<Item>, b: seq<Item>)
    ensures Appended(a + b) == Appended(a) + Appended(b)
  {
    hide ItemText;
    if a == [] {
      assert a + b == b;
    } else {
      assert (a + b)[1..] == a[1..] + b;
      AppendedConcat(a[1..], b);
    }
  }

  lemma {:induction false} DropLastSeparator(items: seq<Item>)
    requires items != []
    ensures Appended(items) == Joined(items) + ", "
  {
    hide ItemText;
    if |items| == 1 {
      assert items[1..] == [];
    } else {
      DropLastSeparator(items[1..]);
    }
  }

  lemma AppendedOne(i: Item)
    ensures Appended([i]) == ItemText(i) + ", " && Appended([]) == ""
  {
  }

  method AppendFlag(result: string, ghost items: seq<Item>, b: bool, name: Name) returns (r: string)
    requires result == Appended(items)
    ensures r == Appended(items + Flag(b, name))
  {
    r := if b then result + NameText(name) + ", " else result;
    AppendedConcat(items, Flag(b, name));
    AppendedOne(Item(name, None));
    hide Appended, NameText;
    assert ItemText(Item(name, None)) == NameText(name);
    assert result + NameText(name) + ", " == result + (NameText(name) + ", ");
    assert result + "" == result;
  }

  method AppendNumber(result: string, ghost items: seq<Item>, n: int, name: Name) returns (r: string)
    requires result == Appended(items)
    ensures r == Appended(items + Number(n, name))
  {
    r := if n != -1 then result + NameText(name) + "=" + PrintInt(n) + ", " else result;
    AppendedConcat(items, Number(n, name));
    AppendedOne(Item(name, Some(n)));
    hide Appended, NameText, PrintInt;
    assert result + NameText(name) + "=" + PrintInt(n) + ", " == result + (NameText(name) + ("=" + PrintInt(n)) + ", ");
    assert result + "" == result;
  }

  /** `headerValue()`: append each directive with a separator, then delete the last separator. */
  method HeaderValue(d: Directives) returns (r: string)
    ensures r == Joined(Items(d))
  {
    hide Appended, Joined, Flag, Number, ItemText;
    AppendedOne(Item(NoCache, None));
    var result := AppendFlag("", [], d.noCache, NoCache);
    ghost var items := [] + Flag(d.noCache, NoCache);
    result := AppendFlag(result, items, d.noStore, NoStore);
    items := items + Flag(d.noStore, NoStore);
    result := AppendNumber(result, items, d.maxAge, MaxAge);
    items := items + Number(d.maxAge, MaxAge);
    result := AppendNumber(result, items, d.sMaxAge, SMaxAge);
    items := items + Number(d.sMaxAge, SMaxAge);
    result := AppendFlag(result, items, d.isPrivate, Private);
    items := items + Flag(d.isPrivate, Private);
    result := AppendFlag(result, items, d.isPublic, Public);
    items := items + Flag(d.isPublic, Public);
    assert items == FrontItems(d);
    result := AppendFlag(result, items, d.mustRevalidate, MustRevalidate);
    items := items + Flag(d.mustRevalidate, MustRevalidate);
    result := AppendNumber(result, items, d.maxStale, MaxStale);
    items := items + Number(d.maxStale, MaxStale);
    result := AppendNumber(result, items, d.minFresh, MinFresh);
    items := items + Number(d.minFresh, MinFresh);
    assert items == FrontItems(d) + MiddleItems(d);
    result := AppendFlag(result, items, d.onlyIfCached, OnlyIfCached);
    items := items + Flag(d.onlyIfCached, OnlyIfCached);
    result := AppendFlag(result, items, d.noTransform, NoTransform);
    items := items + Flag(d.noTransform, NoTransform);
    result := AppendFlag(result, items, d.immutable, Immutable);
    items := items + Flag(d.immutable, Immutable);
    assert items == Items(d);
    r := DropSeparator(result, items);
  }

  method DropSeparator(result: string, ghost items: seq<Item>) returns (r: string)
    requires result == Appended(items)
    ensures r == Joined(items)
  {
    if items != [] {
      DropLastSeparator(items);
    }
    if |result| == 0 {
      return "";
    }
    r := result[..|result| - 2];
  }

  lemma RawReadsBack(headers: Headers, raw: Option<string>)
    requires StandsForAll(headers, raw) && raw.Some?
    ensures ParseValue(ABSENT, raw.value) == ParseHeaders(ABSENT, headers)
  {
    hide ParseValue, ParseHeaders;
    var i: nat :| Only(headers, i);
    OnlyOneCounts(ABSENT, headers, i);
  }

  /** A parsed or built object, with the text that `toString` caches. */
  class CacheControlObject {
    const directives: Directives
    var headerValue: Option<string>

    /** A text that is kept says what the fields say. */
    ghost predicate Valid()
      reads this
    {
      InRange(directives) && (headerValue.Some? ==> ParseValue(ABSENT, headerValue.value) == directives)
    }

    constructor FromHeaders(headers: Headers)
      ensures Valid() && directives == ParseHeaders(ABSENT, headers) && StandsForAll(headers, headerValue)
    {
      var d, raw := Parse(headers);
      if raw.Some? {
        RawReadsBack(headers, raw);
      }
      directives, headerValue := d, raw;
    }

    /** Built by `CacheControl.Builder`: no text yet. */
    constructor FromFields(d: Directives)
      requires InRange(d)
      ensures Valid() && directives == d && headerValue == None
    {
      directives, headerValue := d, None;
    }

    /** Reading the text back gives the fields again, the first time and every later time. */
    method ToText() returns (text: string)
      requires Valid()
      modifies this
      ensures Valid() && text == Printed(directives, old(headerValue)) && headerValue == Some(text)
      ensures ParseValue(ABSENT, text) == directives
    {
      if headerValue.Some? {
        text := headerValue.value;
      } else {
        text := HeaderValue(directives);
        PrintedReadsBack(directives);
        headerValue := Some(text);
      }
    }
  }
}
