/** `FormBody`: url-encoded form fields. */
module FormBody {
  import opened Text
  import opened Utf8
  import opened PercentCoding
  import opened CanonMeaning
  import opened QueryString

  const FORM_ENCODE_SET: string := " \"':;<=>@[]^`{}|/\\?#&!$(),~"

  function FormMode(alreadyEncoded: bool): Mode { Mode(FORM_ENCODE_SET, alreadyEncoded, false, true, true) }

  /** The text that is sent: `name=value` pairs joined by '&'. */
  function FormText(names: seq<string>, values: seq<string>): (r: string)
    requires |names| == |values|
  {
    if names == [] then ""
    else
      var pair := names[0] + "=" + values[0];
      if |names| == 1 then pair else pair + "&" + FormText(names[1..], values[1..])
  }

  /** The characters of an application/x-www-form-urlencoded name or value. */
  predicate FormChar(c: char)
  {
    'a' <= c <= 'z' || 'A' <= c <= 'Z' || '0' <= c <= '9' || c in "*-._%+"
  }

  predicate FormChars(s: string) { forall i :: 0 <= i < |s| ==> FormChar(s[i]) }

  /** The stored text is made of those characters and means `plain`. */
  ghost predicate FieldOk(text: string, plain: string)
  {
    FormChars(text) && PercentDecoded(text, true) == plain
  }

  lemma FormSet()
    ensures PlainSet(FORM_ENCODE_SET)
  {
  }

  /** What either pass, over raw or over encoded text, stores. */
  lemma StoredField(encoded: bool, s: string)
    ensures FieldOk(Canon(FormMode(encoded), s), if encoded then PercentDecoded(Unbroken(s), true) else s)
  {
    hide Canon, PercentDecoded, PlainSet, FormChars, BrokenEscape, Clean, Unbroken;
    FormSet();
    StoredChars(encoded, s);
    if encoded {
      EncodedTextKept(FormMode(true), s);
    } else {
      DecodeUndoesCanon(FormMode(false), s);
    }
  }

  lemma StoredChars(encoded: bool, s: string)
    ensures FormChars(Canon(FormMode(encoded), s))
  {
    hide Canon;
    FormSet();
    CanonOutputStable(FormMode(encoded), s, FormMode(encoded));
    var t := Canon(FormMode(encoded), s);
    forall i | 0 <= i < |t|
      ensures FormChar(t[i])
    {
      StableFormChar(encoded, t[i]);
    }
  }

  lemma StableFormChar(encoded: bool, c: char)
    requires StableChar(FormMode(encoded), c)
    ensures FormChar(c)
  {
  }

  /** Text of those characters is stored as it is by `addEncoded`. */
  lemma EncodedFieldKept(s: string)
    requires FormChars(s)
    ensures Canon(FormMode(true), s) == s
  {
    hide Canon, PlainSet, StableChar, EscapesValid;
    FormSet();
    forall i | 0 <= i < |s|
      ensures StableChar(FormMode(true), s[i])
    {
      FormCharStable(s[i]);
    }
    StableUnchanged(FormMode(true), s);
  }

  lemma SetHasNoFormChar(i: nat)
    requires i < |FORM_ENCODE_SET|
    ensures !FormChar(FORM_ENCODE_SET[i])
  {
  }

  lemma FormCharStable(c: char)
    requires FormChar(c)
    ensures StableChar(FormMode(true), c)
  {
    forall i | 0 <= i < |FORM_ENCODE_SET|
      ensures FORM_ENCODE_SET[i] != c
    {
      SetHasNoFormChar(i);
    }
    FormCharRange(c);
    hide FormChar;
  }

  lemma FormCharRange(c: char)
    requires FormChar(c)
    ensures ' ' < c < '\U{7f}'
  {
  }

  /** `FormBody.Builder`. */
  class FormBuilder {
    var names: seq<string>
    var values: seq<string>
    ghost var added: seq<(string, string)>

    /** The lists hold encoded forms of the fields added so far. */
    ghost predicate Valid()
      reads this
    {
      && |names| == |values| == |added|
      && forall i :: 0 <= i < |added| ==> FieldOk(names[i], added[i].0) && FieldOk(values[i], added[i].1)
    }

    constructor ()
      ensures Valid() && added == [] && names == [] && values == []
    {
      names, values, added := [], [], [];
    }

    method Add(name: string, value: string)
      requires Valid()
      modifies this
      ensures Valid() && added == old(added) + [(name, value)]
      ensures names == old(names) + [Canon(FormMode(false), name)]
      ensures values == old(values) + [Canon(FormMode(false), value)]
    {
      StoredField(false, name);
      StoredField(false, value);
      var encodedName := Canonicalize(name, 0, |name|, FormMode(false));
      var encodedValue := Canonicalize(value, 0, |value|, FormMode(false));
      assert name[0..|name|] == name && value[0..|value|] == value;
      names := names + [encodedName];
      values := values + [encodedValue];
      added := added + [(name, value)];
    }

    /** The field is what the encoded texts mean. */
    method AddEncoded(name: string, value: string)
      requires Valid()
      modifies this
      ensures Valid()
      ensures added == old(added) + [(PercentDecoded(Unbroken(name), true), PercentDecoded(Unbroken(value), true))]
      ensures names == old(names) + [Canon(FormMode(true), name)]
      ensures values == old(values) + [Canon(FormMode(true), value)]
    {
      StoredField(true, name);
      StoredField(true, value);
      var encodedName := Canonicalize(name, 0, |name|, FormMode(true));
      var encodedValue := Canonicalize(value, 0, |value|, FormMode(true));
      assert name[0..|name|] == name && value[0..|value|] == value;
      names := names + [encodedName];
      values := values + [encodedValue];
      added := added + [(PercentDecoded(Unbroken(name), true), PercentDecoded(Unbroken(value), true))];
    }

    /** `FormBody.name(index)` and `value(index)` return exactly what was passed to `add`, or what was meant by what
        was passed to `addEncoded`. */
    method NameAndValue(index: nat) returns (name: string, value: string)
      requires Valid() && index < |names|
      ensures (name, value) == added[index]
    {
      name := PercentDecode(names[index], 0, |names[index]|, true);
      value := PercentDecode(values[index], 0, |values[index]|, true);
      assert names[index][0..|names[index]|] == names[index] && values[index][0..|values[index]|] == values[index];
      assert FieldOk(names[index], added[index].0) && FieldOk(values[index], added[index].1);
    }
  }

  /** `writeOrCountBytes`: one routine that either appends to the sink or only counts. */
  method WriteOrCountBytes(names: seq<string>, values: seq<string>, sink: seq<Byte>, countBytes: bool)
    returns (written: seq<Byte>, byteCount: nat)
    requires |names| == |values|
    ensures countBytes ==> written == sink && byteCount == |Encode(FormText(names, values))|
    ensures !countBytes ==> written == sink + Encode(FormText(names, values)) && byteCount == 0
  {
    hide EncodeChar, Encode;
    var start := if countBytes then [] else sink;
    var buffer := start;
    var i := 0;
    ghost var done := "";
    EncodeEmpty();
    while i < |names|
      invariant 0 <= i <= |names|
      invariant buffer == start + Encode(done)
      invariant done == FormText(names[..i], values[..i])
    {
      ghost var piece := (if i > 0 then "&" else "") + names[i] + "=" + values[i];
      ghost var was := buffer;
      if i > 0 {
        buffer := buffer + Encode("&");
      }
      buffer := buffer + Encode(names[i]) + Encode("=") + Encode(values[i]);
      PieceBytes(was, names[i], values[i], i > 0);
      EncodeConcat(done, piece);
      BytesAssoc(start, Encode(done), Encode(piece));
      FormTextAppend(names[..i], values[..i], names[i], values[i]);
      assert names[..i + 1] == names[..i] + [names[i]] && values[..i + 1] == values[..i] + [values[i]];
      done := done + piece;
      i := i + 1;
    }
    assert names[..|names|] == names && values[..|names|] == values;
    if countBytes {
      return sink, |buffer|;
    }
    return buffer, 0;
  }

  lemma BytesAssoc(a: seq<Byte>, b: seq<Byte>, c: seq<Byte>)
    ensures a + b + c == a + (b + c)
  {
  }

  lemma PieceBytes(sink: seq<Byte>, name: string, value: string, separated: bool)
    ensures (if separated then sink + Encode("&") else sink) + Encode(name) + Encode("=") + Encode(value)
         == sink + Encode((if separated then "&" else "") + name + "=" + value)
  {
    var s := if separated then "&" else "";
    var a, b, c, d := Encode(s), Encode(name), Encode("="), Encode(value);
    SeparatorBytes(sink, separated);
    EncodeFour(s, name, "=", value);
    hide Encode;
    BytesAssoc(sink, a, b);
    BytesAssoc(sink, a + b, c);
    BytesAssoc(sink, a + b + c, d);
  }

  lemma SeparatorBytes(sink: seq<Byte>, separated: bool)
    ensures (if separated then sink + Encode("&") else sink) == sink + Encode(if separated then "&" else "")
  {
    hide EncodeChar;
  }

  lemma EncodeFour(a: string, b: string, c: string, d: string)
    ensures Encode(a + b + c + d) == Encode(a) + Encode(b) + Encode(c) + Encode(d)
  {
    hide Encode;
    EncodeConcat(a, b);
    EncodeConcat(a + b, c);
    EncodeConcat(a + b + c, d);
  }

  lemma {:induction false} FormTextAppend(names: seq<string>, values: seq<string>, name: string, value: string)
    requires |names| == |values|
    ensures FormText(names + [name], values + [value])
         == FormText(names, values) + ((if names == [] then "" else "&") + name + "=" + value)
  {
    if names == [] {
      assert names + [name] == [name] && values + [value] == [value];
    } else {
      assert (names + [name])[1..] == names[1..] + [name] && (values + [value])[1..] == values[1..] + [value];
      FormTextAppend(names[1..], values[1..], name, value);
    }
  }

  // ---------------------------------------------------------------- the receiver's side

  /** What a receiver gets: split at '&' and '=', then decode. */
  function Received(text: string): (r: NamesAndValues)
  {
    var list := Split(text);
    seq(|list|, i requires 0 <= i < |list| =>
      if list[i].Some? then Some(PercentDecoded(list[i].value, true)) else None)
  }

  function Alternating(names: seq<string>, values: seq<string>): (r: NamesAndValues)
    requires |names| == |values|
    ensures |r| == 2 * |names| && Paired(r)
    ensures forall i :: 0 <= i < |r| ==> r[i] == Some(if i % 2 == 0 then names[i / 2] else values[i / 2])
  {
    seq(2 * |names|, i requires 0 <= i < 2 * |names| => Some(if i % 2 == 0 then names[i / 2] else values[i / 2]))
  }

  lemma {:induction false} FormTextIsJoin(names: seq<string>, values: seq<string>)
    requires |names| == |values|
    ensures FormText(names, values) == Join(Alternating(names, values))
  {
    hide Alternating, Join, JoinPair;
    if names == [] {
      JoinEmpty();
      assert Alternating(names, values) == [];
    } else {
      var list, rest := Alternating(names, values), Alternating(names[1..], values[1..]);
      AlternatingRest(names, values);
      JoinCons(list);
      assert list[0] == Some(names[0]) && list[1] == Some(values[0]);
      ValuePair(names[0], values[0]);
      FormTextIsJoin(names[1..], values[1..]);
    }
  }

  lemma AlternatingRest(names: seq<string>, values: seq<string>)
    requires |names| == |values| && names != []
    ensures Rest(Alternating(names, values)) == Alternating(names[1..], values[1..])
  {
    hide Alternating;
    var list, rest := Alternating(names, values), Alternating(names[1..], values[1..]);
    forall i | 0 <= i < |rest|
      ensures list[2..][i] == rest[i]
    {
      assert list[2..][i] == list[i + 2];
      assert (i + 2) / 2 == i / 2 + 1 && (i + 2) % 2 == i % 2;
    }
  }

  lemma ValuePair(name: string, value: string)
    ensures JoinPair(name, Some(value)) == name + "=" + value
  {
  }

  lemma FieldFree(s: string)
    requires FormChars(s)
    ensures Free(s, "&=") && Free(s, "&")
  {
    assert !FormChar('&') && !FormChar('=');
  }

  /** A receiver that splits and decodes the body gets back the fields that were added, in order. */
  lemma FormRoundTrip(fields: seq<(string, string)>, names: seq<string>, values: seq<string>)
    requires |fields| == |names| == |values| && fields != []
    requires forall i :: 0 <= i < |fields| ==> FieldOk(names[i], fields[i].0) && FieldOk(values[i], fields[i].1)
    ensures var r := Received(FormText(names, values));
            |r| == 2 * |fields|
            && forall i :: 0 <= i < |r| ==> r[i] == Some(if i % 2 == 0 then fields[i / 2].0 else fields[i / 2].1)
  {
    hide Split, Join, FormText, Free, PercentDecoded, Alternating, FormChars;
    var list := Alternating(names, values);
    FormTextIsJoin(names, values);
    forall i | 0 <= i < |list|
      ensures list[i].Some? && Free(list[i].value, if i % 2 == 0 then "&=" else "&")
           && PercentDecoded(list[i].value, true) == if i % 2 == 0 then fields[i / 2].0 else fields[i / 2].1
    {
      var text := if i % 2 == 0 then names[i / 2] else values[i / 2];
      assert list[i] == Some(text);
      assert FieldOk(names[i / 2], fields[i / 2].0) && FieldOk(values[i / 2], fields[i / 2].1);
      FieldFree(text);
    }
    SplitJoin(list);
  }
}
