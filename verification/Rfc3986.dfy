/** Reference resolution as section 5.2 of RFC 3986 defines it, written over plain strings. */
module Rfc3986 {
  import opened Text

  /** Section 5.2.4: the position of the last '/', if any. */
  function LastSlash(s: string): (r: int)
    ensures -1 <= r < |s|
    ensures r >= 0 ==> s[r] == '/'
    ensures forall i :: r < i < |s| ==> s[i] != '/'
  {
    if s == "" then -1
    else if s[|s| - 1] == '/' then |s| - 1
    else LastSlash(s[..|s| - 1])
  }

  /** The output buffer without its last segment and the '/' before it. */
  function RemoveLast(output: string): (r: string)
  {
    if LastSlash(output) == -1 then "" else output[..LastSlash(output)]
  }

  /** The first path segment of the input buffer, with its initial '/' if there is one. */
  function FirstSegment(input: string): (n: nat)
    requires input != ""
    ensures 1 <= n <= |input|
  {
    1 + FirstOf(input[1..], "/")
  }

  /** Section 5.2.4, steps 2A to 2E, with the input and output buffers as arguments. */
  function Remove(input: string, output: string): (r: string)
    decreases |input|
  {
    if input == "" then output
    else if "../" <= input then Remove(input[3..], output)
    else if "./" <= input then Remove(input[2..], output)
    else if "/./" <= input then Remove(input[2..], output)
    else if input == "/." then Remove("/", output)
    else if "/../" <= input then Remove(input[3..], RemoveLast(output))
    else if input == "/.." then Remove("/", RemoveLast(output))
    else if input == "." || input == ".." then output
    else
      var n := FirstSegment(input);
      Remove(input[n..], output + input[..n])
  }

  function RemoveDotSegments(path: string): (r: string) { Remove(path, "") }

  /** Section 5.2.3, for a base that has an authority. */
  function Merge(basePath: string, path: string): (r: string)
  {
    if basePath == "" then "/" + path else basePath[..LastSlash(basePath) + 1] + path
  }

  /** A relative reference without scheme and authority, taken apart as in section 4.1. */
  datatype Reference = Reference(path: string, query: Option<string>, fragment: Option<string>)

  /** The transformation of section 5.2.2 for such a reference. */
  function Transform(basePath: string, baseQuery: Option<string>, r: Reference): (t: Reference)
  {
    if r.path == "" then
      Reference(basePath, if r.query.Some? then r.query else baseQuery, r.fragment)
    else if r.path[0] == '/' then
      Reference(RemoveDotSegments(r.path), r.query, r.fragment)
    else
      Reference(RemoveDotSegments(Merge(basePath, r.path)), r.query, r.fragment)
  }
}
