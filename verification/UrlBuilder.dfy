/** The state of `HttpUrl.Builder`, its edits, and its string form. */
module UrlBuilder {
  import opened Text
  import opened PercentCoding
  import opened QueryString

  // ---------------------------------------------------------------- encode sets

  const USERNAME_ENCODE_SET: string := " \"':;<=>@[]^`{}|/\\?#"
  const PATH_SEGMENT_ENCODE_SET: string := " \"<>^`{}|/\\?#"
  const PATH_SEGMENT_ENCODE_SET_URI: string := "[]"
  const QUERY_ENCODE_SET: string := " \"'<>#"
  const QUERY_COMPONENT_REENCODE_SET: string := " \"'<>#&="
  const QUERY_COMPONENT_ENCODE_SET: string := " !\"#$&'(),/:;<=>?@[]\\^`{|}~"
  const QUERY_COMPONENT_ENCODE_SET_URI: string := "\\^`{|}"
  const FRAGMENT_ENCODE_SET_URI: string := " \"#<>\\^`{|}"

  function UserMode(alreadyEncoded: bool): Mode { Mode(USERNAME_ENCODE_SET, alreadyEncoded, false, false, true) }
  function PathMode(alreadyEncoded: bool): Mode { Mode(PATH_SEGMENT_ENCODE_SET, alreadyEncoded, false, false, true) }
  function QueryMode(alreadyEncoded: bool): Mode { Mode(QUERY_ENCODE_SET, alreadyEncoded, false, true, true) }
  function FragmentMode(alreadyEncoded: bool): Mode { Mode("", alreadyEncoded, false, false, false) }
  const COMPONENT_MODE := Mode(QUERY_COMPONENT_ENCODE_SET, false, false, true, true)
  const REENCODE_MODE := Mode(QUERY_COMPONENT_REENCODE_SET, true, false, true, true)
  const PATH_URI_MODE := Mode(PATH_SEGMENT_ENCODE_SET_URI, true, true, false, true)
  const QUERY_URI_MODE := Mode(QUERY_COMPONENT_ENCODE_SET_URI, true, true, true, true)
  const FRAGMENT_URI_MODE := Mode(FRAGMENT_ENCODE_SET_URI, true, true, false, false)
  const PORT_MODE := Mode("", false, false, false, true)

  // ---------------------------------------------------------------- state

  datatype Builder = Builder(scheme: Option<string>, username: string, password: string,
                             host: Option<string>, port: int, segments: seq<string>,
                             query: Option<NamesAndValues>, fragment: Option<string>)

  const FRESH := Builder(None, "", "", None, -1, [""], None, None)

  datatype Failure = NoScheme | BadScheme | BadHost | BadPort | BadSegment | BadIndex | BadPath | NoHost

  /** `Util.canonicalizeHost` (IDNA and IP addresses) stays a parameter of the model. */
  type HostFn = string -> Option<string>

  function DefaultPort(scheme: string): (p: int)
  {
    if scheme == "http" then 80 else if scheme == "https" then 443 else -1
  }

  function EffectivePort(b: Builder): (p: int)
  {
    if b.port != -1 then b.port else if b.scheme.Some? then DefaultPort(b.scheme.value) else -1
  }

  // ---------------------------------------------------------------- path segments

  predicate IsDot(s: string) { s == "." || EqualsIgnoreCase(s, "%2e") }

  predicate IsDotDot(s: string)
  {
    s == ".." || EqualsIgnoreCase(s, "%2e.") || EqualsIgnoreCase(s, ".%2e") || EqualsIgnoreCase(s, "%2e%2e")
  }

  function SetLast(segs: seq<string>, s: string): (r: seq<string>)
    requires segs != []
    ensures |r| == |segs| && r[|r| - 1] == s
  {
    segs[|segs| - 1 := s]
  }

  /** Removes a segment so that the path ends with '/'. */
  function Pop(segs: seq<string>): (r: seq<string>)
    requires segs != []
    ensures r != [] && r[|r| - 1] == ""
  {
    var init := segs[..|segs| - 1];
    if segs[|segs| - 1] == "" && init != [] then SetLast(init, "") else init + [""]
  }

  function PushCanonical(segs: seq<string>, segment: string, trailingSlash: bool): (r: seq<string>)
    requires segs != []
    ensures r != []
    ensures trailingSlash && segs[|segs| - 1] == "" ==> r[|r| - 1] == ""
  {
    if IsDot(segment) then segs
    else if IsDotDot(segment) then Pop(segs)
    else
      var pushed := if segs[|segs| - 1] == "" then SetLast(segs, segment) else segs + [segment];
      if trailingSlash then pushed + [""] else pushed
  }

  function Push(segs: seq<string>, text: string, trailingSlash: bool, alreadyEncoded: bool): (r: seq<string>)
    requires segs != []
    ensures r != []
    ensures trailingSlash && segs[|segs| - 1] == "" ==> r[|r| - 1] == ""
  {
    PushCanonical(segs, Canon(PathMode(alreadyEncoded), text), trailingSlash)
  }

  /** The loop of `resolvePath`. */
  function PushAll(segs: seq<string>, path: string): (r: seq<string>)
    requires segs != []
    ensures r != []
    decreases |path|
  {
    if path == "" then segs
    else
      var k := FirstOf(path, "/\\");
      var pushed := Push(segs, path[..k], k < |path|, true);
      if k < |path| then PushAll(pushed, path[k + 1..]) else pushed
  }

  function ResolvePath(segs: seq<string>, path: string): (r: seq<string>)
    requires segs != []
    ensures r != []
  {
    if path == "" then segs
    else if path[0] in "/\\" then PushAll([""], path[1..])
    else PushAll(SetLast(segs, ""), path)
  }

  /** The loop of `addPathSegments`, which also pushes an empty last segment. */
  function AddSegments(segs: seq<string>, text: string, alreadyEncoded: bool): (r: seq<string>)
    requires segs != []
    ensures r != []
    decreases |text|
  {
    var k := FirstOf(text, "/\\");
    var pushed := Push(segs, text[..k], k < |text|, alreadyEncoded);
    if k < |text| then AddSegments(pushed, text[k + 1..], alreadyEncoded) else pushed
  }

  // ---------------------------------------------------------------- query edits

  function AddParameter(query: Option<NamesAndValues>, m: Mode, name: string, value: Option<string>):
    (r: Option<NamesAndValues>)
  {
    var list := if query.Some? then query.value else [];
    Some(list + [Some(Canon(m, name)), if value.Some? then Some(Canon(m, value.value)) else None])
  }

  /** All pairs but those with the given name. */
  function WithoutName(list: NamesAndValues, name: string): (r: NamesAndValues)
    requires |list| % 2 == 0
    ensures |r| % 2 == 0
  {
    if list == [] then []
    else (if list[0] == Some(name) then [] else list[..2]) + WithoutName(list[2..], name)
  }

  function RemoveParameters(query: Option<NamesAndValues>, canonicalName: string): (r: Option<NamesAndValues>)
    requires query.Some? ==> |query.value| % 2 == 0
  {
    if query.None? then None
    else
      var kept := WithoutName(query.value, canonicalName);
      if kept == [] then None else Some(kept)
  }

  function CanonAll(m: Mode, list: NamesAndValues): (r: NamesAndValues)
    ensures |r| == |list|
  {
    seq(|list|, i requires 0 <= i < |list| =>
      if list[i].Some? then Some(Canon(m, list[i].value)) else None)
  }

  // ---------------------------------------------------------------- edits

  datatype Edit =
    | Scheme(text: string)
    | Username(text: string) | EncodedUsername(text: string)
    | Password(text: string) | EncodedPassword(text: string)
    | Host(text: string) | Port(number: int)
    | AddPathSegment(text: string) | AddPathSegments(text: string)
    | AddEncodedPathSegment(text: string) | AddEncodedPathSegments(text: string)
    | SetPathSegment(index: int, text: string) | SetEncodedPathSegment(index: int, text: string)
    | RemovePathSegment(index: int) | EncodedPath(text: string)
    | Query(query: Option<string>) | EncodedQuery(query: Option<string>)
    | AddQueryParameter(name: string, value: Option<string>)
    | AddEncodedQueryParameter(name: string, value: Option<string>)
    | SetQueryParameter(name: string, value: Option<string>)
    | SetEncodedQueryParameter(name: string, value: Option<string>)
    | RemoveAllQueryParameters(name: string) | RemoveAllEncodedQueryParameters(name: string)
    | Fragment(fragment: Option<string>) | EncodedFragment(fragment: Option<string>)
    | ReencodeForUri

  function WithSegment(b: Builder, index: int, segment: string): (r: Result<Builder, Failure>)
  {
    if IsDot(segment) || IsDotDot(segment) then Err(BadSegment)
    else if !(0 <= index < |b.segments|) then Err(BadIndex)
    else Ok(b.(segments := b.segments[index := segment]))
  }

  function QueryOf(m: Mode, query: Option<string>): (r: Option<NamesAndValues>)
  {
    if query.Some? then Some(Split(Canon(m, query.value))) else None
  }

  predicate WellShaped(b: Builder)
  {
    b.segments != [] && (b.query.Some? ==> b.query.value != [] && Paired(b.query.value))
  }

  /** One call on the builder; an exception is an `Err`. */
  function Apply(b: Builder, e: Edit, host: HostFn): (r: Result<Builder, Failure>)
    requires WellShaped(b)
  {
    match e
    case Scheme(t) =>
      if EqualsIgnoreCase(t, "http") then Ok(b.(scheme := Some("http")))
      else if EqualsIgnoreCase(t, "https") then Ok(b.(scheme := Some("https")))
      else Err(BadScheme)
    case Username(t) => Ok(b.(username := Canon(UserMode(false), t)))
    case EncodedUsername(t) => Ok(b.(username := Canon(UserMode(true), t)))
    case Password(t) => Ok(b.(password := Canon(UserMode(false), t)))
    case EncodedPassword(t) => Ok(b.(password := Canon(UserMode(true), t)))
    case Host(t) =>
      var h := host(PercentDecoded(t, false));
      if h.Some? then Ok(b.(host := h)) else Err(BadHost)
    case Port(n) => if 0 < n <= 65535 then Ok(b.(port := n)) else Err(BadPort)
    case AddPathSegment(t) => Ok(b.(segments := Push(b.segments, t, false, false)))
    case AddEncodedPathSegment(t) => Ok(b.(segments := Push(b.segments, t, false, true)))
    case AddPathSegments(t) => Ok(b.(segments := AddSegments(b.segments, t, false)))
    case AddEncodedPathSegments(t) => Ok(b.(segments := AddSegments(b.segments, t, true)))
    case SetPathSegment(i, t) => WithSegment(b, i, Canon(PathMode(false), t))
    case SetEncodedPathSegment(i, t) => WithSegment(b, i, Canon(PathMode(true), t))
    case RemovePathSegment(i) =>
      if !(0 <= i < |b.segments|) then Err(BadIndex)
      else
        var kept := b.segments[..i] + b.segments[i + 1..];
        Ok(b.(segments := if kept == [] then [""] else kept))
    case EncodedPath(t) =>
      if t == "" || t[0] != '/' then Err(BadPath) else Ok(b.(segments := ResolvePath(b.segments, t)))
    case Query(q) => Ok(b.(query := QueryOf(QueryMode(false), q)))
    case EncodedQuery(q) => Ok(b.(query := QueryOf(QueryMode(true), q)))
    case AddQueryParameter(n, v) => Ok(b.(query := AddParameter(b.query, COMPONENT_MODE, n, v)))
    case AddEncodedQueryParameter(n, v) => Ok(b.(query := AddParameter(b.query, REENCODE_MODE, n, v)))
    case SetQueryParameter(n, v) =>
      Ok(b.(query := AddParameter(RemoveParameters(b.query, Canon(COMPONENT_MODE, n)), COMPONENT_MODE, n, v)))
    case SetEncodedQueryParameter(n, v) =>
      Ok(b.(query := AddParameter(RemoveParameters(b.query, Canon(REENCODE_MODE, n)), REENCODE_MODE, n, v)))
    case RemoveAllQueryParameters(n) => Ok(b.(query := RemoveParameters(b.query, Canon(COMPONENT_MODE, n))))
    case RemoveAllEncodedQueryParameters(n) => Ok(b.(query := RemoveParameters(b.query, Canon(REENCODE_MODE, n))))
    case Fragment(f) => Ok(b.(fragment := if f.Some? then Some(Canon(FragmentMode(false), f.value)) else None))
    case EncodedFragment(f) => Ok(b.(fragment := if f.Some? then Some(Canon(FragmentMode(true), f.value)) else None))
    case ReencodeForUri =>
      Ok(b.(segments := seq(|b.segments|, i requires 0 <= i < |b.segments| => Canon(PATH_URI_MODE, b.segments[i])),
            query := if b.query.Some? then Some(CanonAll(QUERY_URI_MODE, b.query.value)) else None,
            fragment := if b.fragment.Some? then Some(Canon(FRAGMENT_URI_MODE, b.fragment.value)) else None))
  }

  // ---------------------------------------------------------------- printing

  function PathText(segs: seq<string>): (r: string)
  {
    if segs == [] then "" else "/" + segs[0] + PathText(segs[1..])
  }

  function SchemeText(b: Builder): (r: string)
  {
    if b.scheme.Some? then b.scheme.value + "://" else "//"
  }

  function UserInfo(b: Builder): (r: string)
  {
    if b.username == "" && b.password == "" then ""
    else b.username + (if b.password == "" then "" else ":" + b.password) + "@"
  }

  function HostText(host: string): (r: string)
  {
    if ':' in host then "[" + host + "]" else host
  }

  function PortText(b: Builder): (r: string)
  {
    if b.port == -1 && b.scheme.None? then ""
    else if b.scheme.Some? && EffectivePort(b) == DefaultPort(b.scheme.value) then ""
    else ":" + PrintInt(EffectivePort(b))
  }

  function QueryText(b: Builder): (r: string)
    requires WellShaped(b)
  {
    if b.query.Some? then "?" + Join(b.query.value) else ""
  }

  function FragmentText(b: Builder): (r: string)
  {
    if b.fragment.Some? then "#" + b.fragment.value else ""
  }

  function HostPort(b: Builder): (r: string)
  {
    (if b.host.Some? then HostText(b.host.value) else "") + PortText(b)
  }

  /** `Builder.toString`. */
  function Print(b: Builder): (r: string)
    requires WellShaped(b)
  {
    SchemeText(b) + (UserInfo(b) + (HostPort(b) + (PathText(b.segments) + (QueryText(b) + FragmentText(b)))))
  }
}
