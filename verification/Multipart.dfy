/** `MultipartBody`: one routine that either writes a body or only counts its bytes, over trees of
    parts in which a part may be a multipart body again. */
module Multipart {
  import opened Text
  import opened Utf8

  /** A request body. A leaf declares its length or leaves it unknown; a multipart body is cut by a
      boundary. */
  datatype Body =
    | Leaf(contentType: Option<string>, declared: Option<nat>, bytes: seq<Byte>)
    | Multi(multiType: string, boundary: seq<Byte>, parts: seq<Part>)

  datatype Part = Part(headers: seq<(string, string)>, body: Body) // no headers is the null of the source

  const CRLF: seq<Byte> := [13, 10]
  const DASHDASH: seq<Byte> := [45, 45]
  const COLONSPACE: seq<Byte> := [58, 32]

  function TypeOf(b: Body): (r: Option<string>) { if b.Leaf? then b.contentType else Some(b.multiType) }

  // ---------------------------------------------------------------- what is written

  function HeaderBytes(headers: seq<(string, string)>): (r: seq<Byte>)
  {
    if headers == [] then []
    else Encode(headers[0].0) + COLONSPACE + Encode(headers[0].1) + CRLF + HeaderBytes(headers[1..])
  }

  function TypeBytes(t: Option<string>): (r: seq<Byte>)
  {
    if t.Some? then Encode("Content-Type: ") + Encode(t.value) + CRLF else []
  }

  function LengthBytes(n: int): (r: seq<Byte>)
  {
    if n == -1 then [] else Encode("Content-Length: ") + Encode(PrintInt(n)) + CRLF
  }

  /** Everything in front of a part's body, given the length that the body declares. */
  function Preamble(boundary: seq<Byte>, part: Part, length: int): (r: seq<Byte>)
  {
    DASHDASH + boundary + CRLF + HeaderBytes(part.headers) + TypeBytes(TypeOf(part.body)) + LengthBytes(length) + CRLF
  }

  function Closing(boundary: seq<Byte>): (r: seq<Byte>) { DASHDASH + boundary + DASHDASH + CRLF }

  /** `contentLength()`: -1 when unknown. */
  function Length(b: Body): (n: int)
    ensures n >= -1
    decreases b
  {
    match b
    case Leaf(_, declared, _) => if declared.Some? then declared.value else -1
    case Multi(_, boundary, parts) => PartsLength(boundary, parts)
  }

  function PartsLength(boundary: seq<Byte>, parts: seq<Part>): (n: int)
    ensures n >= -1
    decreases parts
  {
    if parts == [] then |Closing(boundary)|
    else
      var length, rest := Length(parts[0].body), PartsLength(boundary, parts[1..]);
      if length == -1 || rest == -1 then -1
      else |Preamble(boundary, parts[0], length)| + length + |CRLF| + rest
  }

  /** What `writeTo` emits. */
  function Written(b: Body): (r: seq<Byte>)
    decreases b
  {
    match b
    case Leaf(_, _, bytes) => bytes
    case Multi(_, boundary, parts) => PartsWritten(boundary, parts)
  }

  function PartsWritten(boundary: seq<Byte>, parts: seq<Part>): (r: seq<Byte>)
    decreases parts
  {
    if parts == [] then Closing(boundary)
    else
      var part := parts[0];
      Preamble(boundary, part, Length(part.body)) + Written(part.body) + CRLF + PartsWritten(boundary, parts[1..])
  }

  // ---------------------------------------------------------------- count and content agree

  /** Every leaf that declares a length tells the truth. */
  predicate Truthful(b: Body)
    decreases b
  {
    match b
    case Leaf(_, declared, bytes) => declared.Some? ==> declared.value == |bytes|
    case Multi(_, _, parts) => forall i :: 0 <= i < |parts| ==> Truthful(parts[i].body)
  }

  /** Some leaf, at any depth, does not know its length. */
  predicate HasUnknown(b: Body)
    decreases b
  {
    match b
    case Leaf(_, declared, _) => declared.None?
    case Multi(_, _, parts) => exists i :: 0 <= i < |parts| && HasUnknown(parts[i].body)
  }

  /** For every tree whose leaves tell the truth, the length is unknown exactly when some leaf's is, and
      otherwise it is the number of bytes written. */
  lemma {:induction false} CountIsContent(b: Body)
    requires Truthful(b)
    ensures Length(b) == -1 <==> HasUnknown(b)
    ensures Length(b) != -1 ==> Length(b) == |Written(b)|
    decreases b
  {
    if b.Multi? {
      PartsAgree(b.boundary, b.parts);
    }
  }

  lemma {:induction false} PartsAgree(boundary: seq<Byte>, parts: seq<Part>)
    requires forall i :: 0 <= i < |parts| ==> Truthful(parts[i].body)
    ensures PartsLength(boundary, parts) == -1 <==> exists i :: 0 <= i < |parts| && HasUnknown(parts[i].body)
    ensures PartsLength(boundary, parts) != -1 ==> PartsLength(boundary, parts) == |PartsWritten(boundary, parts)|
    decreases parts
  {
    hide Preamble, Closing;
    if parts != [] {
      var rest := parts[1..];
      CountIsContent(parts[0].body);
      PartsAgree(boundary, rest);
      assert forall i :: 1 <= i < |parts| ==> parts[i] == rest[i - 1];
      assert forall i :: 0 <= i < |rest| ==> rest[i] == parts[i + 1];
    }
  }

  /** A part whose length is known says, on the last line before its blank line, how many bytes follow. */
  lemma PartAnnouncesItsSize(boundary: seq<Byte>, part: Part)
    requires Truthful(part.body) && !HasUnknown(part.body)
    ensures exists head :: Preamble(boundary, part, Length(part.body))
                        == head + Encode("Content-Length: " + PrintNat(|Written(part.body)|)) + CRLF + CRLF
  {
    hide Encode, HeaderBytes, TypeBytes;
    CountIsContent(part.body);
    var digits := PrintNat(|Written(part.body)|);
    EncodeConcat("Content-Length: ", digits);
    var head := DASHDASH + boundary + CRLF + HeaderBytes(part.headers) + TypeBytes(TypeOf(part.body));
    var line := Encode("Content-Length: " + digits);
    assert head + (line + CRLF) + CRLF == head + line + CRLF + CRLF;
    assert Preamble(boundary, part, Length(part.body)) == head + line + CRLF + CRLF;
  }

  // ---------------------------------------------------------------- the routine

  lemma Assoc(a: seq<Byte>, b: seq<Byte>, c: seq<Byte>)
    ensures a + b + c == a + (b + c)
  {
  }

  /** The headers loop. */
  method WriteHeaders(sink: seq<Byte>, headers: seq<(string, string)>) returns (out: seq<Byte>)
    ensures out == sink + HeaderBytes(headers)
  {
    hide Encode;
    out := sink;
    var h := 0;
    assert headers[0..] == headers;
    while h < |headers|
      invariant 0 <= h <= |headers|
      invariant out + HeaderBytes(headers[h..]) == sink + HeaderBytes(headers)
    {
      ghost var was, rest := out, headers[h..];
      assert rest[0] == headers[h] && rest[1..] == headers[h + 1..];
      ghost var line := Encode(headers[h].0) + COLONSPACE + Encode(headers[h].1) + CRLF;
      assert HeaderBytes(rest) == line + HeaderBytes(rest[1..]);
      out := out + Encode(headers[h].0) + COLONSPACE + Encode(headers[h].1) + CRLF;
      assert out == was + line;
      Assoc(was, line, HeaderBytes(rest[1..]));
      h := h + 1;
    }
  }

  /** Everything in front of a part's body, written piece by piece. */
  method WritePreamble(sink: seq<Byte>, boundary: seq<Byte>, part: Part, length: int) returns (out: seq<Byte>)
    ensures out == sink + Preamble(boundary, part, length)
  {
    hide Encode, HeaderBytes, TypeBytes, LengthBytes;
    var t := TypeOf(part.body);
    out := sink + DASHDASH + boundary + CRLF;
    ghost var piece := DASHDASH + boundary + CRLF;
    assert out == sink + piece;
    out := WriteHeaders(out, part.headers);
    Assoc(sink, piece, HeaderBytes(part.headers));
    piece := piece + HeaderBytes(part.headers);
    out := WriteType(out, t);
    Assoc(sink, piece, TypeBytes(t));
    piece := piece + TypeBytes(t);
    out := WriteLength(out, length);
    Assoc(sink, piece, LengthBytes(length));
    piece := piece + LengthBytes(length);
    out := out + CRLF;
    Assoc(sink, piece, CRLF);
  }

  method WriteType(sink: seq<Byte>, t: Option<string>) returns (out: seq<Byte>)
    ensures out == sink + TypeBytes(t)
  {
    hide Encode;
    out := if t.Some? then sink + (Encode("Content-Type: ") + Encode(t.value) + CRLF) else sink;
  }

  method WriteLength(sink: seq<Byte>, length: int) returns (out: seq<Byte>)
    ensures out == sink + LengthBytes(length)
  {
    hide Encode;
    out := if length != -1 then sink + (Encode("Content-Length: ") + Encode(PrintInt(length)) + CRLF) else sink;
  }

  lemma LengthStep(boundary: seq<Byte>, parts: seq<Part>)
    requires parts != []
    ensures var n, rest := Length(parts[0].body), PartsLength(boundary, parts[1..]);
            PartsLength(boundary, parts)
            == if n == -1 || rest == -1 then -1 else |Preamble(boundary, parts[0], n)| + n + |CRLF| + rest
  {
    hide Preamble;
  }

  lemma WrittenStep(boundary: seq<Byte>, parts: seq<Part>)
    requires parts != []
    ensures PartsWritten(boundary, parts)
         == Preamble(boundary, parts[0], Length(parts[0].body)) + Written(parts[0].body) + CRLF
         + PartsWritten(boundary, parts[1..])
  {
    hide Preamble;
  }

  lemma NoParts(boundary: seq<Byte>)
    ensures PartsLength(boundary, []) == |Closing(boundary)| && PartsWritten(boundary, []) == Closing(boundary)
  {
  }

  /** `writeOrCountBytes`. Counting, it measures the parts' bodies and uses the sink only as a scratch
      buffer for what goes around them; writing, it appends exactly the body. */
  method WriteOrCountBytes(sink: seq<Byte>, countBytes: bool, boundary: seq<Byte>, parts: seq<Part>)
    returns (out: seq<Byte>, byteCount: int)
    ensures countBytes ==> out == sink && byteCount == PartsLength(boundary, parts)
    ensures !countBytes ==> out == sink + PartsWritten(boundary, parts) && byteCount == 0
    decreases parts, 0
  {
    hide Preamble, PartsLength, PartsWritten, Length, Written, Closing;
    byteCount := 0;
    var buffer := if countBytes then [] else sink;
    assert parts[0..] == parts;
    for p := 0 to |parts|
      invariant byteCount >= 0 && (!countBytes ==> byteCount == 0)
      invariant countBytes ==> Counted(boundary, parts, p, |buffer| + byteCount)
      invariant !countBytes ==> buffer + PartsWritten(boundary, parts[p..]) == sink + PartsWritten(boundary, parts)
    {
      ghost var rest, was := parts[p..], buffer;
      assert rest[0] == parts[p] && rest[1..] == parts[p + 1..];
      LengthStep(boundary, rest);
      WrittenStep(boundary, rest);
      var contentLength := ContentLength(parts[p].body);
      if contentLength == -1 && countBytes {
        return sink, -1;
      }
      buffer := WritePreamble(buffer, boundary, parts[p], contentLength);
      if countBytes {
        byteCount := byteCount + contentLength;
      } else {
        buffer := WriteTo(buffer, parts[p].body);
      }
      buffer := buffer + CRLF;
      if !countBytes {
        WriteOnePart(was, Preamble(boundary, parts[p], contentLength), Written(parts[p].body),
                    PartsWritten(boundary, rest[1..]));
      }
    }
    assert parts[|parts|..] == [];
    NoParts(boundary);
    buffer := buffer + Closing(boundary);
    if countBytes {
      return sink, byteCount + |buffer|;
    }
    return buffer, 0;
  }

  /** The parts from `p` on decide the rest of the count. */
  predicate Counted(boundary: seq<Byte>, parts: seq<Part>, p: nat, soFar: nat)
    requires p <= |parts|
  {
    var all, rest := PartsLength(boundary, parts), PartsLength(boundary, parts[p..]);
    all == if rest == -1 then -1 else soFar + rest
  }

  lemma WriteOnePart(sink: seq<Byte>, preamble: seq<Byte>, content: seq<Byte>, rest: seq<Byte>)
    ensures sink + preamble + content + CRLF + rest == sink + (preamble + content + CRLF + rest)
  {
  }

  method ContentLength(b: Body) returns (n: int)
    ensures n == Length(b)
    decreases b, 1
  {
    match b
    case Leaf(_, declared, _) => n := if declared.Some? then declared.value else -1;
    case Multi(_, boundary, parts) =>
      var _, count := WriteOrCountBytes([], true, boundary, parts);
      n := count;
  }

  method WriteTo(sink: seq<Byte>, b: Body) returns (out: seq<Byte>)
    ensures out == sink + Written(b)
    decreases b, 1
  {
    match b
    case Leaf(_, _, bytes) => out := sink + bytes;
    case Multi(_, boundary, parts) =>
      var count;
      out, count := WriteOrCountBytes(sink, false, boundary, parts);
  }

  // ---------------------------------------------------------------- the object

  /** A multipart body with the length it caches. */
  class MultipartBody {
    const boundary: seq<Byte>
    const parts: seq<Part>
    var contentLength: int

    ghost predicate Valid()
      reads this
    {
      contentLength == -1 || contentLength == PartsLength(boundary, parts)
    }

    constructor (boundary: seq<Byte>, parts: seq<Part>)
      ensures Valid() && this.boundary == boundary && this.parts == parts
    {
      this.boundary, this.parts, this.contentLength := boundary, parts, -1;
    }

    /** The same answer on every call, from the cache or not. */
    method ContentLengthOf() returns (n: int)
      requires Valid()
      modifies this`contentLength
      ensures Valid() && n == PartsLength(boundary, parts)
    {
      if contentLength != -1 {
        return contentLength;
      }
      var _, count := WriteOrCountBytes([], true, boundary, parts);
      contentLength := count;
      n := count;
    }

    /** Over a tree that tells the truth, the announced length is the number of bytes then written. */
    method Send(sink: seq<Byte>) returns (announced: int, out: seq<Byte>)
      requires Valid() && forall i :: 0 <= i < |parts| ==> Truthful(parts[i].body)
      modifies this`contentLength
      ensures Valid() && sink <= out
      ensures announced == -1 <==> exists i :: 0 <= i < |parts| && HasUnknown(parts[i].body)
      ensures announced != -1 ==> |out| == |sink| + announced
    {
      announced := ContentLengthOf();
      var count;
      out, count := WriteOrCountBytes(sink, false, boundary, parts);
      PartsAgree(boundary, parts);
    }
  }
}
