/** A reader of multipart bodies after section 5.1.1 of RFC 2046, and the proof that it takes apart what
    `MultipartBody` writes. */
module MultipartReader {
  import opened Text
  import opened Utf8
  import opened Multipart

  // ---------------------------------------------------------------- the reader

  const LINE_END: seq<Byte> := [13, 10]

  /** The delimiter between parts belongs to the line end in front of it. */
  function Delimiter(boundary: seq<Byte>): (d: seq<Byte>)
  {
    [13, 10, 45, 45] + boundary
  }

  /** The first position at which `p` occurs. */
  function Find(text: seq<Byte>, p: seq<Byte>): (r: Option<nat>)
    ensures r.Some? ==> r.value + |p| <= |text|
  {
    if p <= text then Some(0)
    else if text == [] then None
    else
      var r := Find(text[1..], p);
      if r.None? then None else Some(r.value + 1)
  }

  /** Lines up to the first empty one, and what comes after it. */
  function ReadLines(text: seq<Byte>): (r: Option<(seq<seq<Byte>>, seq<Byte>)>)
    ensures r.Some? ==> |r.value.1| <= |text|
    decreases |text|
  {
    var k := Find(text, LINE_END);
    if k.None? then None
    else if k.value == 0 then Some(([], text[2..]))
    else
      var r := ReadLines(text[k.value + 2..]);
      if r.None? then None else Some(([text[..k.value]] + r.value.0, r.value.1))
  }

  datatype Piece = Piece(lines: seq<seq<Byte>>, content: seq<Byte>)

  datatype Message = Message(pieces: seq<Piece>, epilogue: seq<Byte>)

  function PutPiece(p: Piece, m: Option<Message>): (r: Option<Message>)
  {
    if m.None? then None else Some(Message([p] + m.value.pieces, m.value.epilogue))
  }

  /** What follows "--boundary": two more dashes end the message; a line end begins a part, which goes up to
      the next delimiter. */
  function ReadPieces(text: seq<Byte>, boundary: seq<Byte>): (r: Option<Message>)
    decreases |text|
  {
    if [45, 45] <= text then Some(Message([], text[2..]))
    else if !(LINE_END <= text) then None
    else
      var head := ReadLines(text[2..]);
      if head.None? then None
      else
        var (lines, rest) := head.value;
        var k := Find(rest, Delimiter(boundary));
        if k.None? then None
        else
          PutPiece(Piece(lines, rest[..k.value]), ReadPieces(rest[k.value + |Delimiter(boundary)|..], boundary))
  }

  function ReadMultipart(text: seq<Byte>, boundary: seq<Byte>): (r: Option<Message>)
  {
    if [45, 45] + boundary <= text then ReadPieces(text[2 + |boundary|..], boundary) else None
  }

  // ---------------------------------------------------------------- what should be read

  function HeaderLines(headers: seq<(string, string)>): (r: seq<seq<Byte>>)
  {
    if headers == [] then [] else [Encode(headers[0].0 + ": " + headers[0].1)] + HeaderLines(headers[1..])
  }

  function TypeLines(t: Option<string>): (r: seq<seq<Byte>>)
  {
    if t.Some? then [Encode("Content-Type: " + t.value)] else []
  }

  function LengthLines(n: int): (r: seq<seq<Byte>>)
  {
    if n == -1 then [] else [Encode("Content-Length: " + PrintInt(n))]
  }

  /** The part's own headers, its type, and its length when that is known. */
  function Lines(part: Part): (r: seq<seq<Byte>>)
  {
    HeaderLines(part.headers) + TypeLines(TypeOf(part.body)) + LengthLines(Length(part.body))
  }

  function Pieces(parts: seq<Part>): (r: seq<Piece>)
  {
    if parts == [] then [] else [Piece(Lines(parts[0]), Written(parts[0].body))] + Pieces(parts[1..])
  }

  predicate Occurs(p: seq<Byte>, text: seq<Byte>)
  {
    exists i :: 0 <= i <= |text| && OccursAt(p, text, i)
  }

  predicate OccursAt(p: seq<Byte>, text: seq<Byte>, i: nat)
    requires i <= |text|
  {
    p <= text[i..]
  }

  /** Headers and types are single lines. */
  predicate SingleLines(part: Part)
  {
    && (forall h :: 0 <= h < |part.headers| ==> '\r' !in part.headers[h].0 && '\r' !in part.headers[h].1)
    && (TypeOf(part.body).Some? ==> '\r' !in TypeOf(part.body).value)
  }

  /** No part's content holds the delimiter. */
  predicate BoundaryFree(boundary: seq<Byte>, parts: seq<Part>)
  {
    forall i :: 0 <= i < |parts| ==> !Occurs(Delimiter(boundary), Written(parts[i].body))
  }

  // ---------------------------------------------------------------- finding

  /** A pattern whose first byte is not in it again is found behind a text in which it does not occur. */
  lemma {:induction false} FindBehind(a: seq<Byte>, p: seq<Byte>, rest: seq<Byte>)
    requires p != [] && p[0] !in p[1..] && !Occurs(p, a)
    ensures Find(a + (p + rest), p) == Some(|a|)
  {
    var text := a + (p + rest);
    if a == [] {
      assert text == p + rest;
    } else {
      NotInFront(a, p, rest);
      assert text[1..] == a[1..] + (p + rest);
      ShorterFree(p, a);
      FindBehind(a[1..], p, rest);
    }
  }

  lemma NotInFront(a: seq<Byte>, p: seq<Byte>, rest: seq<Byte>)
    requires p != [] && p[0] !in p[1..] && !Occurs(p, a) && a != []
    ensures !(p <= a + (p + rest))
  {
    var text := a + (p + rest);
    if |p| <= |a| {
      assert !OccursAt(p, a, 0);
      assert text[..|p|] == a[0..][..|p|];
    } else {
      assert text[|a|] == p[0] && p[|a|] == p[1..][|a| - 1];
    }
  }

  lemma ShorterFree(p: seq<Byte>, a: seq<Byte>)
    requires !Occurs(p, a) && a != []
    ensures !Occurs(p, a[1..])
  {
    if Occurs(p, a[1..]) {
      var i :| 0 <= i <= |a[1..]| && OccursAt(p, a[1..], i);
      assert a[1..][i..] == a[i + 1..];
      assert OccursAt(p, a, i + 1);
    }
  }

  /** Where it does occur it is found early. */
  lemma {:induction false} FindInside(a: seq<Byte>, p: seq<Byte>, rest: seq<Byte>)
    requires p != [] && Occurs(p, a)
    ensures Find(a + rest, p).Some? && Find(a + rest, p).value + |p| <= |a|
  {
    var text := a + rest;
    var i :| 0 <= i <= |a| && OccursAt(p, a, i);
    if i == 0 {
      assert p <= text;
    } else if !(p <= text) {
      assert a[1..][i - 1..] == a[i..];
      assert OccursAt(p, a[1..], i - 1);
      assert text[1..] == a[1..] + rest;
      FindInside(a[1..], p, rest);
    } else {
      assert |p| <= |a[i..]| <= |a|;
    }
  }

  // ---------------------------------------------------------------- lines

  function LineBytes(lines: seq<seq<Byte>>): (r: seq<Byte>)
  {
    if lines == [] then [] else lines[0] + LINE_END + LineBytes(lines[1..])
  }

  predicate LineOk(line: seq<Byte>) { line != [] && 13 !in line }

  lemma {:induction false} LinesReadBack(lines: seq<seq<Byte>>, rest: seq<Byte>)
    requires forall i :: 0 <= i < |lines| ==> LineOk(lines[i])
    ensures ReadLines(LineBytes(lines) + (LINE_END + rest)) == Some((lines, rest))
    decreases |lines|
  {
    hide Find;
    var text := LineBytes(lines) + (LINE_END + rest);
    if lines == [] {
      assert text == [] + (LINE_END + rest);
      FindBehind([], LINE_END, rest);
      assert text[2..] == rest;
    } else {
      var line, more := lines[0], LineBytes(lines[1..]) + (LINE_END + rest);
      assert text == line + (LINE_END + more);
      NoLineEnd(line);
      FindBehind(line, LINE_END, more);
      assert text[..|line|] == line && text[|line| + 2..] == more;
      LinesReadBack(lines[1..], rest);
      assert lines == [line] + lines[1..];
    }
  }

  lemma NoLineEnd(line: seq<Byte>)
    requires 13 !in line
    ensures !Occurs(LINE_END, line)
  {
    forall i | 0 <= i <= |line|
      ensures !OccursAt(LINE_END, line, i)
    {
      assert i < |line| ==> line[i..][0] == line[i];
    }
  }

  lemma {:induction false} LineBytesConcat(a: seq<seq<Byte>>, b: seq<seq<Byte>>)
    ensures LineBytes(a + b) == LineBytes(a) + LineBytes(b)
  {
    if a == [] {
      assert a + b == b;
    } else {
      assert (a + b)[1..] == a[1..] + b;
      LineBytesConcat(a[1..], b);
    }
  }

  lemma OneLine(line: seq<Byte>)
    ensures LineBytes([line]) == line + LINE_END && LineBytes([]) == []
  {
    assert [line][1..] == [];
  }

  lemma {:induction false} NoReturn(s: string)
    requires '\r' !in s
    ensures 13 !in Encode(s) && (s != "" ==> Encode(s) != [])
  {
    if s != "" {
      NoReturnChar(s[0]);
      NoReturn(s[1..]);
    }
  }

  lemma NoReturnChar(c: char)
    requires c != '\r'
    ensures 13 !in EncodeChar(c)
  {
  }

  lemma {:induction false} HeadersAreLines(headers: seq<(string, string)>)
    requires forall h :: 0 <= h < |headers| ==> '\r' !in headers[h].0 && '\r' !in headers[h].1
    ensures HeaderBytes(headers) == LineBytes(HeaderLines(headers))
    ensures forall i :: 0 <= i < |HeaderLines(headers)| ==> LineOk(HeaderLines(headers)[i])
  {
    hide Encode;
    if headers != [] {
      var name, value := headers[0].0, headers[0].1;
      HeadersAreLines(headers[1..]);
      EncodeConcat(name + ": ", value);
      EncodeConcat(name, ": ");
      ColonBlank();
      NoReturn(name + ": " + value);
    }
  }

  lemma ColonBlank()
    ensures Encode(": ") == [58, 32]
  {
    assert ": "[1..] == " " && " "[1..] == "";
  }

  lemma TypeIsLine(t: Option<string>)
    requires t.Some? ==> '\r' !in t.value
    ensures TypeBytes(t) == LineBytes(TypeLines(t))
    ensures forall i :: 0 <= i < |TypeLines(t)| ==> LineOk(TypeLines(t)[i])
  {
    hide Encode;
    OneLine([]);
    if t.Some? {
      EncodeConcat("Content-Type: ", t.value);
      NoReturn("Content-Type: " + t.value);
      OneLine(Encode("Content-Type: " + t.value));
    }
  }

  lemma LengthIsLine(n: int)
    ensures LengthBytes(n) == LineBytes(LengthLines(n))
    ensures forall i :: 0 <= i < |LengthLines(n)| ==> LineOk(LengthLines(n)[i])
  {
    hide Encode;
    OneLine([]);
    if n != -1 {
      EncodeConcat("Content-Length: ", PrintInt(n));
      NumberNoReturn(n);
      NoReturn("Content-Length: " + PrintInt(n));
      OneLine(Encode("Content-Length: " + PrintInt(n)));
    }
  }

  lemma NumberNoReturn(n: int)
    ensures '\r' !in PrintInt(n)
  {
    var digits := PrintNat(if n < 0 then 0 - n else n);
    assert forall i :: 0 <= i < |digits| ==> IsDigit(digits[i]);
    hide PrintNat;
  }

  /** Everything in front of a part's body is its delimiter line, its lines and an empty line. */
  lemma PreambleIsLines(boundary: seq<Byte>, part: Part)
    requires SingleLines(part)
    ensures Preamble(boundary, part, Length(part.body))
         == [45, 45] + boundary + (LINE_END + (LineBytes(Lines(part)) + LINE_END))
    ensures forall i :: 0 <= i < |Lines(part)| ==> LineOk(Lines(part)[i])
  {
    hide HeaderBytes, HeaderLines, TypeBytes, TypeLines, LengthBytes, LengthLines, LineBytes, Length, LineOk;
    var h, t, n := HeaderLines(part.headers), TypeLines(TypeOf(part.body)), LengthLines(Length(part.body));
    HeadersAreLines(part.headers);
    TypeIsLine(TypeOf(part.body));
    LengthIsLine(Length(part.body));
    LineBytesConcat(h, t);
    LineBytesConcat(h + t, n);
  }

  // ---------------------------------------------------------------- the message

  /** What is written behind the first "--boundary". */
  function Behind(boundary: seq<Byte>, parts: seq<Part>): (r: seq<Byte>)
  {
    if parts == [] then [45, 45, 13, 10]
    else
      LINE_END + (LineBytes(Lines(parts[0])) + (LINE_END + (Written(parts[0].body)
                                                            + (Delimiter(boundary) + Behind(boundary, parts[1..])))))
  }

  lemma {:induction false} WrittenShape(boundary: seq<Byte>, parts: seq<Part>)
    requires forall i :: 0 <= i < |parts| ==> SingleLines(parts[i])
    ensures PartsWritten(boundary, parts) == [45, 45] + boundary + Behind(boundary, parts)
    decreases |parts|
  {
    hide Written, Lines, LineBytes, Preamble, SingleLines;
    if parts == [] {
      NoParts(boundary);
    } else {
      PreambleIsLines(boundary, parts[0]);
      WrittenStep(boundary, parts);
      WrittenShape(boundary, parts[1..]);
      hide PartsWritten, Behind;
      BehindStep(boundary, parts);
      Glue([45, 45] + boundary, LineBytes(Lines(parts[0])), Written(parts[0].body), boundary,
           Behind(boundary, parts[1..]));
    }
  }

  lemma BehindStep(boundary: seq<Byte>, parts: seq<Part>)
    requires parts != []
    ensures Behind(boundary, parts)
         == LINE_END + (LineBytes(Lines(parts[0])) + (LINE_END + (Written(parts[0].body)
                        + (Delimiter(boundary) + Behind(boundary, parts[1..])))))
  {
    hide Written, Lines, LineBytes, Delimiter;
  }

  lemma Glue(front: seq<Byte>, lines: seq<Byte>, content: seq<Byte>, boundary: seq<Byte>, rest: seq<Byte>)
    ensures front + (LINE_END + (lines + LINE_END)) + content + CRLF + ([45, 45] + boundary + rest)
         == front + (LINE_END + (lines + (LINE_END + (content + (Delimiter(boundary) + rest)))))
  {
  }

  lemma ReadStep(text: seq<Byte>, lines: seq<seq<Byte>>, tail: seq<Byte>, boundary: seq<Byte>)
    requires LINE_END <= text && !([45, 45] <= text) && ReadLines(text[2..]) == Some((lines, tail))
    ensures var k := Find(tail, Delimiter(boundary));
            ReadPieces(text, boundary)
            == if k.None? then None
               else PutPiece(Piece(lines, tail[..k.value]),
                             ReadPieces(tail[k.value + |Delimiter(boundary)|..], boundary))
  {
    hide ReadLines, Find, Delimiter, PutPiece;
  }

  lemma OnePiece(text: seq<Byte>, lines: seq<seq<Byte>>, tail: seq<Byte>, boundary: seq<Byte>)
    requires text == LINE_END + (LineBytes(lines) + (LINE_END + tail))
    requires forall i :: 0 <= i < |lines| ==> LineOk(lines[i])
    ensures var k := Find(tail, Delimiter(boundary));
            ReadPieces(text, boundary)
            == if k.None? then None
               else PutPiece(Piece(lines, tail[..k.value]),
                             ReadPieces(tail[k.value + |Delimiter(boundary)|..], boundary))
  {
    hide LineBytes, ReadLines, Find, LineOk, Delimiter, ReadPieces, PutPiece;
    LinesReadBack(lines, tail);
    assert text[2..] == LineBytes(lines) + (LINE_END + tail);
    assert text[0] == 13;
    ReadStep(text, lines, tail, boundary);
  }

  lemma PutMatches(p: Piece, q: Piece, m: Option<Message>, rest: seq<Piece>, epilogue: seq<Byte>)
    ensures PutPiece(p, m) == Some(Message([q] + rest, epilogue)) <==> p == q && m == Some(Message(rest, epilogue))
  {
    if m.Some? {
      var x, y := [p] + m.value.pieces, [q] + rest;
      assert x[0] == p && y[0] == q && x[1..] == m.value.pieces && y[1..] == rest;
    }
  }

  lemma DelimiterOnce(boundary: seq<Byte>)
    requires 13 !in boundary
    ensures Delimiter(boundary) != [] && Delimiter(boundary)[0] !in Delimiter(boundary)[1..]
  {
  }

  /** The first part is read back exactly when its content does not hold the delimiter. */
  lemma FirstReadBack(text: seq<Byte>, p: Piece, rest: seq<Byte>, boundary: seq<Byte>, more: seq<Piece>)
    requires text == LINE_END + (LineBytes(p.lines) + (LINE_END + (p.content + (Delimiter(boundary) + rest))))
    requires 13 !in boundary && forall i :: 0 <= i < |p.lines| ==> LineOk(p.lines[i])
    ensures ReadPieces(text, boundary) == Some(Message([p] + more, LINE_END))
       <==> !Occurs(Delimiter(boundary), p.content) && ReadPieces(rest, boundary) == Some(Message(more, LINE_END))
  {
    hide LineBytes, Find, Occurs, Delimiter, LineOk, ReadPieces, PutPiece;
    var d := Delimiter(boundary);
    var tail := p.content + (d + rest);
    OnePiece(text, p.lines, tail, boundary);
    DelimiterOnce(boundary);
    if Occurs(d, p.content) {
      FindInside(p.content, d, d + rest);
      var k := Find(tail, d).value;
      assert |tail[..k]| < |p.content|;
      PutMatches(Piece(p.lines, tail[..k]), p, ReadPieces(tail[k + |d|..], boundary), more, LINE_END);
    } else {
      FindBehind(p.content, d, rest);
      assert tail[..|p.content|] == p.content && tail[|p.content| + |d|..] == rest;
      PutMatches(p, p, ReadPieces(rest, boundary), more, LINE_END);
    }
  }

  /** Reading gives the parts back exactly when no content holds the delimiter. */
  lemma {:induction false} PiecesReadBack(boundary: seq<Byte>, parts: seq<Part>)
    requires 13 !in boundary && forall i :: 0 <= i < |parts| ==> SingleLines(parts[i])
    ensures ReadPieces(Behind(boundary, parts), boundary) == Some(Message(Pieces(parts), LINE_END))
       <==> BoundaryFree(boundary, parts)
    decreases |parts|
  {
    hide Written, Lines, LineBytes, SingleLines, Occurs, Delimiter, LineOk, Behind, BoundaryFree, ReadPieces;
    if parts == [] {
      NoPieces(boundary);
    } else {
      var p := Piece(Lines(parts[0]), Written(parts[0].body));
      BehindStep(boundary, parts);
      PreambleIsLines(boundary, parts[0]);
      FirstReadBack(Behind(boundary, parts), p, Behind(boundary, parts[1..]), boundary, Pieces(parts[1..]));
      PiecesReadBack(boundary, parts[1..]);
      FreeHere(boundary, parts);
    }
  }

  lemma NoPieces(boundary: seq<Byte>)
    ensures ReadPieces(Behind(boundary, []), boundary) == Some(Message([], LINE_END)) && BoundaryFree(boundary, [])
  {
    assert [45, 45, 13, 10][2..] == LINE_END;
  }

  lemma FreeHere(boundary: seq<Byte>, parts: seq<Part>)
    requires parts != []
    ensures BoundaryFree(boundary, parts)
       <==> !Occurs(Delimiter(boundary), Written(parts[0].body)) && BoundaryFree(boundary, parts[1..])
  {
    hide Occurs, Written;
    assert forall i :: 1 <= i < |parts| ==> parts[i] == parts[1..][i - 1];
    assert forall i :: 0 <= i < |parts[1..]| ==> parts[1..][i] == parts[i + 1];
  }

  /** For every multipart body, nested ones included, whose headers are single lines: a reader finds each part's
      header lines and bytes, in order, and the close delimiter, exactly when no part's bytes hold the delimiter. */
  lemma ReadsBack(multiType: string, boundary: seq<Byte>, parts: seq<Part>)
    requires 13 !in boundary && forall i :: 0 <= i < |parts| ==> SingleLines(parts[i])
    ensures ReadMultipart(Written(Multi(multiType, boundary, parts)), boundary)
         == Some(Message(Pieces(parts), [13, 10]))
       <==> BoundaryFree(boundary, parts)
  {
    hide PartsWritten, Behind, Pieces, ReadPieces, SingleLines, BoundaryFree;
    WrittenShape(boundary, parts);
    PiecesReadBack(boundary, parts);
    var text := [45, 45] + boundary + Behind(boundary, parts);
    assert Written(Multi(multiType, boundary, parts)) == text;
    assert text[2 + |boundary|..] == Behind(boundary, parts);
  }
}
