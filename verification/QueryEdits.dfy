/** Query-parameter edits on encoded text do what the same edits on a plain list of decoded
    pairs do. */
module QueryEdits {
  import opened Text
  import opened PercentCoding
  import opened QueryString
  import opened UrlBuilder
  import opened HttpUrls

  /** A decoded name with its value, if it has one. */
  type Pair = (string, Option<string>)

  datatype ParameterEdit = Add(name: string, value: Option<string>) | Set(name: string, value: Option<string>)
                         | RemoveAll(name: string)

  // ---------------------------------------------------------------- the plain list

  function Without(list: seq<Pair>, name: string): (r: seq<Pair>)
  {
    if list == [] then []
    else (if list[0].0 == name then [] else [list[0]]) + Without(list[1..], name)
  }

  function EditPlain(list: seq<Pair>, e: ParameterEdit): (r: seq<Pair>)
  {
    match e
    case Add(n, v) => list + [(n, v)]
    case Set(n, v) => Without(list, n) + [(n, v)]
    case RemoveAll(n) => Without(list, n)
  }

  function RunPlain(es: seq<ParameterEdit>): (r: seq<Pair>)
  {
    if es == [] then [] else EditPlain(RunPlain(es[..|es| - 1]), es[|es| - 1])
  }

  // ---------------------------------------------------------------- the stored list

  function AsEdit(e: ParameterEdit): Edit
  {
    match e
    case Add(n, v) => AddQueryParameter(n, v)
    case Set(n, v) => SetQueryParameter(n, v)
    case RemoveAll(n) => RemoveAllQueryParameters(n)
  }

  function EncodeValue(v: Option<string>): (r: Option<string>)
  {
    if v.Some? then Some(Canon(COMPONENT_MODE, v.value)) else None
  }

  function EncodePairs(list: seq<Pair>): (r: NamesAndValues)
    ensures |r| == 2 * |list| && Paired(r)
  {
    if list == [] then []
    else
      var rest, name, value := EncodePairs(list[1..]), Canon(COMPONENT_MODE, list[0].0), EncodeValue(list[0].1);
      PrependPaired(name, value, rest);
      [Some(name), value] + rest
  }

  lemma PrependPaired(name: string, value: Option<string>, rest: NamesAndValues)
    requires Paired(rest)
    ensures Paired([Some(name), value] + rest)
  {
    var r := [Some(name), value] + rest;
    assert forall i :: 2 <= i < |r| ==> r[i] == rest[i - 2];
  }

  /** The alternating list a plain list corresponds to, null when it is empty. */
  function Stored(list: seq<Pair>): (r: Option<NamesAndValues>)
  {
    if list == [] then None else Some(EncodePairs(list))
  }

  function Flatten(list: seq<Pair>): (r: NamesAndValues)
  {
    if list == [] then [] else [Some(list[0].0), list[0].1] + Flatten(list[1..])
  }

  // ---------------------------------------------------------------- simulation

  lemma CanonInjective(a: string, b: string)
    ensures Canon(COMPONENT_MODE, a) == Canon(COMPONENT_MODE, b) <==> a == b
  {
    hide Canon, PercentDecoded;
    DecodeUndoesCanon(COMPONENT_MODE, a);
    DecodeUndoesCanon(COMPONENT_MODE, b);
  }

  lemma {:induction false} EncodeAppend(list: seq<Pair>, p: Pair)
    ensures EncodePairs(list + [p]) == EncodePairs(list) + [Some(Canon(COMPONENT_MODE, p.0)), EncodeValue(p.1)]
  {
    hide Canon, EncodeValue, Paired;
    if list == [] {
      assert [] + [p] == [p] && [p][1..] == [];
    } else {
      assert (list + [p])[1..] == list[1..] + [p];
      EncodeAppend(list[1..], p);
    }
  }

  lemma {:induction false} WithoutEncoded(list: seq<Pair>, name: string)
    ensures WithoutName(EncodePairs(list), Canon(COMPONENT_MODE, name)) == EncodePairs(Without(list, name))
  {
    hide Canon, EncodeValue, Paired;
    if list != [] {
      var e := EncodePairs(list);
      assert e[2..] == EncodePairs(list[1..]);
      assert e[..2] == [Some(Canon(COMPONENT_MODE, list[0].0)), EncodeValue(list[0].1)];
      WithoutEncoded(list[1..], name);
      CanonInjective(list[0].0, name);
      var kept := Without(list[1..], name);
      assert ([list[0]] + kept)[1..] == kept;
      assert [] + kept == kept && [] + EncodePairs(kept) == EncodePairs(kept);
    }
  }

  lemma RemoveStored(list: seq<Pair>, name: string)
    ensures RemoveParameters(Stored(list), Canon(COMPONENT_MODE, name)) == Stored(Without(list, name))
  {
    hide Canon, EncodePairs, Without, WithoutName;
    WithoutEncoded(list, name);
    NoneLeft(name);
  }

  lemma NoneLeft(name: string)
    ensures Without([], name) == []
  {
  }

  lemma AddStored(list: seq<Pair>, name: string, value: Option<string>)
    ensures AddParameter(Stored(list), COMPONENT_MODE, name, value) == Stored(list + [(name, value)])
  {
    hide Canon, EncodePairs, Paired;
    EncodeAppend(list, (name, value));
    if list == [] {
      assert EncodePairs(list) == [];
    }
  }

  /** One edit of the encoded list is the same edit of the plain list. */
  lemma EditSimulates(b: Builder, list: seq<Pair>, e: ParameterEdit, host: HostFn)
    requires WellShaped(b) && b.query == Stored(list)
    ensures Apply(b, AsEdit(e), host) == Ok(b.(query := Stored(EditPlain(list, e))))
  {
    hide Canon, EncodePairs, Without, RemoveParameters, AddParameter, Stored, Paired;
    match e
    case Add(n, v) => AddStored(list, n, v);
    case Set(n, v) =>
      RemoveStored(list, n);
      AddStored(Without(list, n), n, v);
    case RemoveAll(n) => RemoveStored(list, n);
  }

  lemma {:induction false} DecodePairs(list: seq<Pair>)
    ensures DecodeList(EncodePairs(list), true) == Flatten(list)
  {
    hide Canon, PercentDecoded, Paired;
    if list != [] {
      var e := EncodePairs(list);
      DecodePairs(list[1..]);
      DecodeUndoesCanon(COMPONENT_MODE, list[0].0);
      if list[0].1.Some? {
        DecodeUndoesCanon(COMPONENT_MODE, list[0].1.value);
      }
      DecodeConcat(e[..2], EncodePairs(list[1..]));
      assert e == e[..2] + EncodePairs(list[1..]);
      assert DecodeList(e[..2], true) == [Some(list[0].0), list[0].1];
    }
  }

  lemma DecodeConcat(a: NamesAndValues, b: NamesAndValues)
    ensures DecodeList(a + b, true) == DecodeList(a, true) + DecodeList(b, true)
  {
    hide DecodeOption;
  }

  function RunEdits(b: Builder, es: seq<ParameterEdit>, host: HostFn): (r: Builder)
    requires WellShaped(b) && b.query.None?
    ensures r == b.(query := Stored(RunPlain(es))) && WellShaped(r)
  {
    if es == [] then b
    else
      var before := RunEdits(b, es[..|es| - 1], host);
      EditSimulates(before, RunPlain(es[..|es| - 1]), es[|es| - 1], host);
      Apply(before, AsEdit(es[|es| - 1]), host).value
  }

  /** Any sequence of parameter edits on a builder without a query yields, once built, the decoded
      list the plain edits give; the stored list is null or not empty, and of even length. */
  lemma EditsRefinePlainList(b: Builder, es: seq<ParameterEdit>, host: HostFn)
    requires WellShaped(b) && b.query.None? && b.scheme.Some? && b.host.Some?
    ensures var r := RunEdits(b, es, host);
            && (r.query.Some? ==> r.query.value != [] && |r.query.value| % 2 == 0)
            && (r.query.None? <==> RunPlain(es) == [])
            && Build(r).Ok?
            && Build(r).value.query == (if RunPlain(es) == [] then None else Some(Flatten(RunPlain(es))))
  {
    hide Print, PercentDecoded, DecodeList, RunEdits, EncodePairs, RunPlain;
    DecodePairs(RunPlain(es));
  }
}
