/** The query of a URL: the alternating list of names and values, its string form, and the
    edits the builder makes to it. */
module QueryString {
  import opened Text

  /** Names at even positions, values (null when there is no '=') at odd ones. */
  type NamesAndValues = seq<Option<string>>

  /** A list the class can hold: whole pairs, no null name. */
  predicate Paired(list: NamesAndValues)
  {
    |list| % 2 == 0 && forall i :: 0 <= i < |list| && i % 2 == 0 ==> list[i].Some?
  }

  predicate SplitsBack(list: NamesAndValues)
    requires Paired(list)
  {
    forall i :: 0 <= i < |list| && list[i].Some? ==>
      Free(list[i].value, if i % 2 == 0 then "&=" else "&")
  }

  // ---------------------------------------------------------------- join and split

  function JoinPair(name: string, value: Option<string>): (r: string)
  {
    if value.Some? then name + "=" + value.value else name
  }

  function Join(list: NamesAndValues): (r: string)
    requires Paired(list)
  {
    if list == [] then ""
    else
      var pair := JoinPair(list[0].value, list[1]);
      if |list| == 2 then pair else pair + "&" + Join(Rest(list))
  }

  function Rest(list: NamesAndValues): (r: NamesAndValues)
    requires Paired(list) && list != []
    ensures Paired(r) && r == list[2..]
  {
    assert forall i :: 0 <= i < |list[2..]| ==> list[2..][i] == list[i + 2];
    list[2..]
  }

  function SplitPair(text: string): (r: NamesAndValues)
    ensures |r| == 2 && Paired(r)
  {
    var e := FirstOf(text, "=");
    if e == |text| then [Some(text), None] else [Some(text[..e]), Some(text[e + 1..])]
  }

  function Split(q: string): (r: NamesAndValues)
    ensures Paired(r) && r != []
    decreases |q|
  {
    var a := FirstOf(q, "&");
    if a == |q| then SplitPair(q)
    else
      var pair, rest := SplitPair(q[..a]), Split(q[a + 1..]);
      PairedConcat(pair, rest);
      pair + rest
  }

  lemma PairedConcat(a: NamesAndValues, b: NamesAndValues)
    requires Paired(a) && Paired(b)
    ensures Paired(a + b)
  {
    forall i | 0 <= i < |a + b| && i % 2 == 0
      ensures (a + b)[i].Some?
    {
      assert i >= |a| ==> (a + b)[i] == b[i - |a|] && (i - |a|) % 2 == 0;
    }
  }

  lemma JoinEmpty()
    ensures Join([]) == ""
  {
  }

  lemma JoinCons(list: NamesAndValues)
    requires Paired(list) && list != []
    ensures Join(list) == JoinPair(list[0].value, list[1]) + (if |list| == 2 then "" else "&" + Join(Rest(list)))
  {
    hide JoinPair;
  }

  lemma SplitCons(q: string, a: nat)
    requires a == FirstOf(q, "&")
    ensures Split(q) == SplitPair(q[..a]) + (if a == |q| then [] else Split(q[a + 1..]))
  {
    hide SplitPair, FirstOf;
    assert q[..|q|] == q;
  }

  /** `queryStringToNamesAndValues`. */
  method QueryStringToNamesAndValues(q: string) returns (r: NamesAndValues)
    ensures r == Split(q)
  {
    hide Split, SplitPair, FirstOf, Paired;
    r := [];
    var pos := 0;
    assert q[0..] == q;
    ghost var tail := Split(q);
    while pos <= |q|
      invariant 0 <= pos <= |q| + 1
      invariant Split(q) == r + tail
      invariant tail == if pos <= |q| then Split(q[pos..]) else []
      decreases |q| + 1 - pos
    {
      var ampersand := DelimiterOffset(q, pos, |q|, "&");
      var equals := DelimiterOffset(q, pos, |q|, "=");
      SplitAt(q, pos, ampersand, equals);
      ghost var was := r;
      if equals == |q| || equals > ampersand {
        r := r + [Some(q[pos..ampersand]), None];
      } else {
        r := r + [Some(q[pos..equals]), Some(q[equals + 1..ampersand])];
      }
      tail := if ampersand < |q| then Split(q[ampersand + 1..]) else [];
      ListAssoc(was, PairCut(q, pos, ampersand, equals), tail);
      pos := ampersand + 1;
    }
  }

  /** The pair that the loop cuts out between two positions. */
  function PairCut(q: string, pos: nat, ampersand: nat, equals: nat): (r: NamesAndValues)
    requires pos <= ampersand <= |q| && pos <= equals <= |q| && (equals == ampersand ==> equals == |q|)
  {
    if equals == |q| || equals > ampersand then [Some(q[pos..ampersand]), None]
    else [Some(q[pos..equals]), Some(q[equals + 1..ampersand])]
  }

  lemma ListAssoc(a: NamesAndValues, b: NamesAndValues, c: NamesAndValues)
    ensures a + b + c == a + (b + c)
  {
  }

  lemma SplitAt(q: string, pos: nat, ampersand: nat, equals: nat)
    requires pos <= |q| && ampersand == pos + FirstOf(q[pos..|q|], "&") && equals == pos + FirstOf(q[pos..|q|], "=")
    ensures ampersand <= |q| && equals <= |q| && (equals == ampersand ==> equals == |q|)
    ensures Split(q[pos..])
         == PairCut(q, pos, ampersand, equals) + (if ampersand < |q| then Split(q[ampersand + 1..]) else [])
  {
    hide Split, SplitPair, FirstOf, PairCut;
    var rest, a := q[pos..], ampersand - pos;
    assert rest == q[pos..|q|];
    PairAt(q, pos, ampersand, equals);
    SplitCons(rest, a);
    assert rest[..a] == q[pos..ampersand];
    if a < |rest| {
      assert rest[a + 1..] == q[ampersand + 1..];
    }
  }

  /** An '=' counts only before the next '&'. */
  lemma PairAt(q: string, pos: nat, ampersand: nat, equals: nat)
    requires pos <= ampersand <= |q| && (ampersand < |q| ==> q[ampersand] == '&')
    requires pos <= equals <= |q| && equals == pos + FirstOf(q[pos..|q|], "=")
    ensures equals == ampersand ==> equals == |q|
    ensures SplitPair(q[pos..ampersand]) == PairCut(q, pos, ampersand, equals)
  {
    var s, t, e := q[pos..|q|], q[pos..ampersand], equals - pos;
    assert t == s[..ampersand - pos];
    FirstOfPrefix(s, ampersand - pos, "=");
    assert ampersand < |q| ==> s[ampersand - pos] == '&';
    hide FirstOf;
    if equals < ampersand {
      assert t[..e] == q[pos..equals] && t[e + 1..] == q[equals + 1..ampersand];
    }
  }

  /** Cutting a string short keeps its first delimiter, or leaves it with none. */
  lemma {:induction false} FirstOfPrefix(s: string, n: nat, delims: string)
    requires n <= |s|
    ensures FirstOf(s[..n], delims) == if FirstOf(s, delims) < n then FirstOf(s, delims) else n
  {
    if n > 0 && s[0] !in delims {
      FirstOfPrefix(s[1..], n - 1, delims);
      assert s[..n][1..] == s[1..][..n - 1];
    }
  }

  /** `namesAndValuesToQueryString`. */
  method NamesAndValuesToQueryString(list: NamesAndValues) returns (out: string)
    requires Paired(list)
    ensures out == Join(list)
  {
    hide Join, JoinPair;
    out := "";
    var i := 0;
    ghost var rest := list;
    assert list[0..] == list;
    JoinEmpty();
    while i < |list|
      invariant 0 <= i <= |list| && i % 2 == 0
      invariant Paired(rest) && rest == list[i..]
      invariant Join(list) == out + (if i > 0 && rest != [] then "&" else "") + Join(rest)
      invariant i == 0 ==> out == ""
    {
      ghost var start, was := out + (if i > 0 then "&" else ""), rest;
      JoinCons(rest);
      if i > 0 {
        out := out + "&";
      }
      out := AppendPair(out, list[i].value, list[i + 1]);
      rest := Rest(rest);
      JoinAssoc(start, JoinPair(was[0].value, was[1]), if rest == [] then "" else "&", Join(rest));
      i := i + 2;
    }
  }

  method AppendPair(start: string, name: string, value: Option<string>) returns (out: string)
    ensures out == start + JoinPair(name, value)
  {
    out := start + name;
    if value.Some? {
      out := out + "=";
      out := out + value.value;
    }
  }

  lemma JoinAssoc(a: string, b: string, c: string, d: string)
    ensures a + (b + c + d) == a + b + c + d
  {
  }

  /** Splitting a query and joining the pieces gives the query back, for every string. */
  lemma {:induction false} JoinSplit(q: string)
    ensures Join(Split(q)) == q
    decreases |q|
  {
    hide Join, JoinPair, SplitPair, FirstOf, Split;
    var a := FirstOf(q, "&");
    SplitCons(q, a);
    JoinCons(Split(q));
    JoinSplitPair(q[..a]);
    if a < |q| {
      JoinSplit(q[a + 1..]);
      assert Rest(Split(q)) == Split(q[a + 1..]);
      assert q == q[..a] + "&" + q[a + 1..];
    } else {
      assert q[..a] == q;
    }
  }

  lemma JoinSplitPair(text: string)
    ensures var p := SplitPair(text); JoinPair(p[0].value, p[1]) == text
  {
  }

  lemma SplitJoinPair(name: string, value: Option<string>)
    requires Free(name, "&=") && (value.Some? ==> Free(value.value, "&"))
    ensures SplitPair(JoinPair(name, value)) == [Some(name), value]
    ensures Free(JoinPair(name, value), "&")
  {
    var text := JoinPair(name, value);
    if value.Some? {
      assert text == name + "=" + value.value;
      assert text[|name|] == '=';
      assert FirstOf(text, "=") == |name|;
      assert text[..|name|] == name && text[|name| + 1..] == value.value;
    }
  }

  /** Joining a list and splitting the string gives the list back, for every list whose names
      hold no separator and whose values hold no '&'. */
  lemma {:induction false} SplitJoin(list: NamesAndValues)
    requires Paired(list) && list != [] && SplitsBack(list)
    ensures Split(Join(list)) == list
    decreases |list|
  {
    hide Join, JoinPair, SplitPair, FirstOf, Split, SplitsBack;
    var pair, q := JoinPair(list[0].value, list[1]), Join(list);
    FirstPairFree(list);
    SplitJoinPair(list[0].value, list[1]);
    JoinCons(list);
    if |list| == 2 {
      assert q == pair && q[..|q|] == q;
      SplitCons(q, |q|);
    } else {
      var rest := Rest(list);
      RestSplitsBack(list);
      SplitJoin(rest);
      assert q == pair + "&" + Join(rest);
      assert forall i :: 0 <= i < |pair| ==> q[i] == pair[i];
      assert q[|pair|] == '&' && FirstOf(q, "&") == |pair|;
      SplitCons(q, |pair|);
      assert q[..|pair|] == pair && q[|pair| + 1..] == Join(rest);
      assert list == [list[0], list[1]] + rest;
    }
  }

  lemma FirstPairFree(list: NamesAndValues)
    requires Paired(list) && list != [] && SplitsBack(list)
    ensures Free(list[0].value, "&=") && (list[1].Some? ==> Free(list[1].value, "&"))
  {
    hide Free;
  }

  lemma RestSplitsBack(list: NamesAndValues)
    requires Paired(list) && list != [] && SplitsBack(list)
    ensures SplitsBack(Rest(list))
  {
  }

  /** The pieces of any query satisfy the conditions of `SplitJoin`. */
  lemma {:induction false} SplitSplitsBack(q: string)
    ensures SplitsBack(Split(q))
    decreases |q|
  {
    var a := FirstOf(q, "&");
    var head := SplitPair(q[..a]);
    assert Free(q[..a], "&");
    assert forall i :: 0 <= i < 2 && head[i].Some? ==> Free(head[i].value, if i % 2 == 0 then "&=" else "&");
    if a == |q| {
      assert q[..a] == q;
    } else {
      var tail := Split(q[a + 1..]);
      SplitSplitsBack(q[a + 1..]);
      var list := Split(q);
      forall i | 0 <= i < |list| && list[i].Some?
        ensures Free(list[i].value, if i % 2 == 0 then "&=" else "&")
      {
        assert list[i] == if i < 2 then head[i] else tail[i - 2];
      }
    }
  }
}
