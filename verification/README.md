# Verification of the HTTP client and player core

Dafny models of the parts of this repository that are hardest to get right, with machine-checked
proofs of what they promise.

| file | models |
|---|---|
| `Text.dfy`, `Utf8.dfy` | scanning, trimming, decimals; UTF-8 as bytes |
| `PercentCoding.dfy`, `CanonMeaning.dfy`, `UrlAlphabet.dfy` | `HttpUrl.canonicalize` and `percentDecode`, fast and slow paths; what they keep; which characters they leave |
| `QueryString.dfy`, `QueryEdits.dfy` | query split, join and parameter edits |
| `UrlBuilder.dfy`, `UrlCanonical.dfy`, `UrlShapes.dfy`, `BuilderMeaning.dfy` | `HttpUrl.Builder` as a value, the invariant its operations keep, and what each means for the decoded URL |
| `HttpUrls.dfy` | the flat URL string and the accessors that slice it |
| `UrlParser.dfy`, `UrlReading.dfy`, `UrlHistory.dfy` | `parse`, what it reads, and every history of builder operations |
| `Rfc3986.dfy`, `Resolution.dfy`, `UrlLinks.dfy` | the reference algorithm of section 5.2 of RFC 3986, and the proof that `parse` agrees with it; links with a scheme or an authority of their own |
| `BuilderObject.dfy` | the builder as an object with its index loops, proved against the value model |
| `FormBody.dfy` | url-encoded form bodies |
| `Dispatcher.dfy`, `DispatcherLaws.dfy`, `DispatcherSockets.dfy`, `DispatcherDrain.dfy`, `DispatcherBounds.dfy` | the dispatcher as a state machine over all interleavings; its laws, without and with web sockets; that it is never stuck; runs that show where the laws stop |
| `DispatcherObject.dfy`, `AsyncCalls.dfy` | the dispatcher as an object; the try/catch/finally of `AsyncCall` |
| `MessageQueues.dfy`, `AudioPipeline.dfy`, `AudioRuns.dfy` | `message_queue` and its clients in `AudioChannel`, and what they get done |
| `Looper.dfy` | the linked mailbox and its two semaphores |
| `CacheControl.dfy`, `CacheDirectives.dfy` | the directive parser and printer, and what directives mean |
| `Multipart.dfy`, `MultipartReader.dfy` | the count-or-write routine over trees of parts, and a reader that takes its output apart |
| `NativeImages.dfy` | plane layout and copying |

`dafny verify dfyconfig.toml` checks everything.

## How to read it

Concurrency is a sequence of steps. A step is one critical section, one turn of a loop that can be
interleaved, or one action outside a lock; `Run` gives the state after any sequence of steps, and its
`ensures` is the invariant of every reachable state. The laws are lemmas about `Run`.

Code that works in place is a class or a method with loops, and its `ensures` ties the new state to a
function of the old one; what that function is worth is proved beside it.

Four promises turned out to be conditional; the conditions are proved:

- A printed URL parses back to itself if and only if its fragment does not end in a space
  (`ReachableFixpoint`): the fragment's encode set is empty, and `parse` trims. `SpaceIsLost` gives a
  reachable URL that is lost.
- Calls to one host start in enqueue order if and only if no promote pass visits a call after a
  skipped call to the same host became eligible (`PerHostOrder`). `finished` decrements outside the
  lock, so that can happen in the middle of a pass (`OrderCanFail`); it cannot when no decrement falls
  inside a pass (`OrderWithQuietPasses`).
- The documentation of `setMaxRequestsPerHost` says that web sockets do not count against the limit.
  `findExistingCallWithHost` may return a web socket, whose counter a plain call then shares, and the
  limit for plain calls can then be exceeded. Counters get mixed exactly when a plain call is enqueued
  while the first existing call to its host is a web socket (`InheritanceExact`). Without such an enqueue
  the limit holds in every run (`PlainLimitHolds`); with a single one it can be exceeded, whatever the
  host and the limit (`SocketLiftsLimit`).
- `removeAllQueryParameters` and `setQueryParameter` find a parameter by its encoded spelling: a query that
  was given encoded may spell the same name in another way, as `%61` for `a`, and then keeps it. They do
  what their names say if and only if every stored name of that meaning has the expected spelling
  (`EditMeaning`; `SpellingKept` is one that is kept).

Three smaller ones. A link that repeats the base's scheme is not always the text behind the scheme: there a
colon is path text (`SchemeBehindScheme`). A strict pass over encoded text, which `reencodeForUri` makes, would
break an escape that a tab or a line end splits (`EncodedMeaning`, `TabInEscape`); canonical components hold
neither, so `reencodeForUri` keeps every meaning (`ReencodeMeaning`). And for an odd height the whole-plane copy
of a chroma plane reads and writes half a line beyond its rows (`HalfLineMore`). Inside images laid out by `AllocNativeImage` that is harmless
(`AllocatedIsReadable`). A source whose chroma plane ends its buffer just behind its rows is read within
the buffer if and only if the height is even or a line is shorter than two bytes (`TightPlane`).

Where code and comment disagree the model follows the code: the comment above `HttpUrl.canonicalize` says
that queries encode a space as `+`, and the code writes `%20`.

## Model

| member | source | states |
|---|---|---|
| `Text.DelimiterOffset` | okhttp3-java/src/main/java/okhttp3/internal/Util.java:386-391 | the first position in [pos, limit) that holds a delimiter, else limit, for every input |
| `Text.SkipLeading` | okhttp3-java/src/main/java/okhttp3/internal/Util.java:337-351 | the position after the leading ASCII whitespace; what is left is the left-trimmed text |
| `Text.SkipTrailing` | okhttp3-java/src/main/java/okhttp3/internal/Util.java:357-371 | the limit before the trailing ASCII whitespace, never left of pos |
| `Utf8.RoundTrip` | okhttp3-java/src/main/java/okhttp3/HttpUrl.java:1674-1687 | decoding the UTF-8 bytes of any text gives the text back; this is what `Buffer.writeUtf8` and `readUtf8` contribute |
| `PercentCoding.WriteEscapes` | okhttp3-java/src/main/java/okhttp3/HttpUrl.java:1788-1798 | the byte loop emits one `%XX` with upper-case digits for each byte of the scratch buffer, in order |
| `PercentCoding.CanonicalizeInto` | okhttp3-java/src/main/java/okhttp3/HttpUrl.java:1759-1804 | the slow path appends exactly the canonical form of input[pos..limit) |
| `PercentCoding.Canonicalize` | okhttp3-java/src/main/java/okhttp3/HttpUrl.java:1734-1757 | the scanning fast path returns the same as the slow path on every input, slice and flag combination |
| `PercentCoding.PercentDecodeInto` | okhttp3-java/src/main/java/okhttp3/HttpUrl.java:1690-1708 | the slow path appends exactly the decoded bytes of encoded[pos..limit) |
| `PercentCoding.PercentDecode` | okhttp3-java/src/main/java/okhttp3/HttpUrl.java:1674-1688 | the scanning fast path returns the same as the slow path on every input |
| `PercentCoding.DecodeUndoesCanon` | okhttp3-java/src/main/java/okhttp3/HttpUrl.java:1660-1804 | percent-coding round trip: decoding freshly encoded text returns it, for every encode set and every flag |
| `PercentCoding.CanonOutputStable` | okhttp3-java/src/main/java/okhttp3/HttpUrl.java:1759-1804 | whatever the flags, the output holds no character that a weaker pass would escape |
| `PercentCoding.CanonEscapesValid` | okhttp3-java/src/main/java/okhttp3/HttpUrl.java:1710-1804 | after a strict pass, or a pass over raw text, every `%` begins a two-digit escape |
| `PercentCoding.CanonFixpoint` | okhttp3-java/src/main/java/okhttp3/HttpUrl.java:1759-1804 | the texts that an already-encoded pass leaves alone, exactly: both directions |
| `PercentCoding.CanonIdempotent` | okhttp3-java/src/main/java/okhttp3/HttpUrl.java:1734-1804 | a second, already-encoded pass with the same or a smaller encode set changes nothing |
| `PercentCoding.CanonConcat` | okhttp3-java/src/main/java/okhttp3/HttpUrl.java:1759-1804 | without look-ahead, canonicalising a concatenation is canonicalising the pieces |
| `PercentCoding.DecodeIgnoresCase` | okhttp3-java/src/main/java/okhttp3/HttpUrl.java:1690-1708 | texts that differ only in the letter case of their escapes decode to the same bytes |
| `CanonMeaning.EncodedMeaning` | okhttp3-java/src/main/java/okhttp3/HttpUrl.java:1759-1804 | an already-encoded pass keeps the bytes that the text stands for without its tabs and line ends; a strict one keeps them if and only if none of those splits an escape |
| `CanonMeaning.TabInEscape` | okhttp3-java/src/main/java/okhttp3/HttpUrl.java:1759-1804 | one text with a split escape |
| `CanonMeaning.EncodedTextKept` | okhttp3-java/src/main/java/okhttp3/HttpUrl.java:1734-1804 | so the text still decodes to what it decoded to; without tabs and line ends nothing is dropped |
| `UrlAlphabet.ComponentChars` | okhttp3-java/src/main/java/okhttp3/HttpUrl.java:295-303 | the characters of user info, path segments, queries and query components, in so many letters, whatever text is given |
| `UrlAlphabet.EncodedKept` | okhttp3-java/src/main/java/okhttp3/HttpUrl.java:295-305 | for each component, already encoded text is stored unchanged if and only if it is made of those characters |
| `UrlAlphabet.RawKept` | okhttp3-java/src/main/java/okhttp3/HttpUrl.java:295-303 | raw text is stored unchanged if and only if it is made of them without percent signs, and without plus signs where they mean spaces |
| `QueryString.QueryStringToNamesAndValues` | okhttp3-java/src/main/java/okhttp3/HttpUrl.java:663-680 | the loop computes the split at `&` and at each first `=`; a missing `=` gives a null value |
| `QueryString.NamesAndValuesToQueryString` | okhttp3-java/src/main/java/okhttp3/HttpUrl.java:644-655 | the loop computes the join; a null value prints no `=` |
| `QueryString.JoinSplit` | okhttp3-java/src/main/java/okhttp3/HttpUrl.java:644-680 | join(split(q)) = q for every string q |
| `QueryString.SplitJoin` | okhttp3-java/src/main/java/okhttp3/HttpUrl.java:644-680 | split(join(l)) = l for every non-empty paired list whose names are free of `&` and `=` and whose values are null or free of `&` |
| `QueryString.SplitSplitsBack` | okhttp3-java/src/main/java/okhttp3/HttpUrl.java:663-680 | the result of every split meets that condition, so split and join are mutual inverses |
| `UrlCanonical.RemoveParametersOk` | okhttp3-java/src/main/java/okhttp3/HttpUrl.java:1228-1256 | removing parameters leaves a null list or a non-empty paired one, all components still canonical |
| `UrlCanonical.ApplyKeepsCanonical` | okhttp3-java/src/main/java/okhttp3/HttpUrl.java:1023-1296 | every builder operation that returns normally keeps the canonical invariant: each component stable under its encode set, no dot segment, a paired query list, a legal port |
| `UrlCanonical.ReencodeOk` | okhttp3-java/src/main/java/okhttp3/HttpUrl.java:1276-1296 | `reencodeForUri` keeps the canonical invariant as well |
| `UrlAlphabet.CanonicalChars` | okhttp3-java/src/main/java/okhttp3/HttpUrl.java:295-305 | the components of every canonical builder are made of those characters |
| `UrlAlphabet.UriChars` | okhttp3-java/src/main/java/okhttp3/HttpUrl.java:1276-1296 | after `reencodeForUri` each component is made of what `java.net.URI` takes there, every `%` begins an escape, and only the fragment keeps non-ASCII characters |
| `BuilderMeaning.DotMeaning` | okhttp3-java/src/main/java/okhttp3/HttpUrl.java:1541-1550 | a segment counts as a dot segment if and only if it decodes to `.` or `..` |
| `BuilderMeaning.SplitCanon` | okhttp3-java/src/main/java/okhttp3/HttpUrl.java:663-680 | splitting a canonical query is canonicalising the parts of the split |
| `BuilderMeaning.ReencodeMeaning` | okhttp3-java/src/main/java/okhttp3/HttpUrl.java:1276-1296 | `reencodeForUri` changes no decoded component |
| `BuilderMeaning.EditMeaning` | okhttp3-java/src/main/java/okhttp3/HttpUrl.java:1023-1296 | every builder operation is the plain operation on the decoded components, fails when it does, and leaves the other components alone; a removal is so if and only if every stored name that means the same has the spelling it looks for |
| `BuilderMeaning.SpellingKept` | okhttp3-java/src/main/java/okhttp3/HttpUrl.java:1222-1256 | the failing side: a query given as `%61` keeps its name when `a` is removed |
| `BuilderMeaning.HistoryMeaning` | okhttp3-java/src/main/java/okhttp3/HttpUrl.java:1023-1296 | any history of operations is the same history on the decoded components |
| `BuilderMeaning.BuiltView` | okhttp3-java/src/main/java/okhttp3/HttpUrl.java:358-381 | a URL is built if and only if scheme and host are there; its fields are the decoded components, its port 80 or 443 by the scheme when none was set |
| `HttpUrls.PathSegmentsLoop` | okhttp3-java/src/main/java/okhttp3/HttpUrl.java:593-604 | the slicing loop over the flat string returns the segments of its path |
| `HttpUrls.AccessorsUndoPrinter` | okhttp3-java/src/main/java/okhttp3/HttpUrl.java:435-473 | username, password, path, segments, query and fragment cut out of the flat string are exactly the components that were printed, for every buildable canonical builder |
| `HttpUrls.NewBuilderRebuilds` | okhttp3-java/src/main/java/okhttp3/HttpUrl.java:901-914 | `newBuilder` recovers the builder up to a default port, and `newBuilder().build()` equals the URL |
| `UrlShapes.QueryReread` | okhttp3-java/src/main/java/okhttp3/HttpUrl.java:637-680 | printing and re-reading a canonical query list through canonicalise and split gives the list back |
| `UrlParser.ParsePrinted` | okhttp3-java/src/main/java/okhttp3/HttpUrl.java:1304-1488 | parsing the printed form of any buildable canonical builder succeeds and gives the builder with its effective port and its fragment trimmed on the right |
| `UrlParser.CanonicalFixpoint` | okhttp3-java/src/main/java/okhttp3/HttpUrl.java:1304-1488 | the rebuilt builder is the same (port made explicit) if and only if the fragment does not end in a space |
| `UrlReading.ReadInfo` | okhttp3-java/src/main/java/okhttp3/HttpUrl.java:1396-1433 | user info is everything before the last at-sign, cut at its first colon: what the loop has then stands for exactly these bytes |
| `UrlReading.UrlRead` | okhttp3-java/src/main/java/okhttp3/HttpUrl.java:1359-1488 | for every absolute URL text: refused exactly if its port or host is, and otherwise each decoded component is what its piece of the text means; without a port it is 80 or 443 |
| `UrlHistory.ParseCanonical` | okhttp3-java/src/main/java/okhttp3/HttpUrl.java:1359-1488 | whatever `parse` accepts, with or without a base, is canonical |
| `UrlHistory.ParsedFragment` | okhttp3-java/src/main/java/okhttp3/HttpUrl.java:1361-1487 | no fragment that came from `parse` ends in a space |
| `UrlHistory.Run` | okhttp3-java/src/main/java/okhttp3/HttpUrl.java:1019-1488 | every builder reached by any history of edits, parses, resolutions and reopenings that return normally is canonical |
| `UrlHistory.ReachableFixpoint` | okhttp3-java/src/main/java/okhttp3/HttpUrl.java:1298-1488 | for every reachable builder with scheme and host, print then parse then build gives an equal URL if and only if the fragment does not end in a space |
| `UrlHistory.SpaceIsLost` | okhttp3-java/src/main/java/okhttp3/HttpUrl.java:1258-1263 | the failing side is reached: a history whose fragment ends in a space, and whose URL differs after printing and parsing |
| `Resolution.PushAllRemovesDots` | okhttp3-java/src/main/java/okhttp3/HttpUrl.java:1507-1571 | pushing segments one by one is remove_dot_segments of section 5.2.4 of RFC 3986 on the same path |
| `Resolution.ResolvedPath` | okhttp3-java/src/main/java/okhttp3/HttpUrl.java:1490-1571 | `resolvePath` is merge (section 5.2.3) followed by remove_dot_segments, reading `\` as `/` and the `%2e` forms as dots |
| `Resolution.ResolvesAsRfc` | okhttp3-java/src/main/java/okhttp3/HttpUrl.java:1455-1488 | for every base and every link without scheme and authority, `parse` gives the target of section 5.2.2: path, query (the base's exactly when the link has neither path nor query), fragment, everything else from the base |
| `UrlLinks.SchemeGrammar` | okhttp3-java/src/main/java/okhttp3/HttpUrl.java:1577-1602 | a scheme is found exactly where section 3.1 of RFC 3986 has one: a letter, then letters, digits, `+`, `-` and `.`, then a colon |
| `UrlLinks.OtherSchemes` | okhttp3-java/src/main/java/okhttp3/HttpUrl.java:1365-1374 | a text with another scheme than http and https is refused, whatever the base |
| `UrlLinks.OwnAuthority` | okhttp3-java/src/main/java/okhttp3/HttpUrl.java:1365-1389 | a link with two or more slashes behind its scheme, or with another scheme than the base's, is parsed as if there were no base |
| `UrlLinks.NetworkPath` | okhttp3-java/src/main/java/okhttp3/HttpUrl.java:1378-1389 | a link that starts with two or more slashes takes only the scheme from the base |
| `UrlLinks.SameSchemeResolves` | okhttp3-java/src/main/java/okhttp3/HttpUrl.java:1365-1488 | a link that repeats the base's scheme without authority gives the section 5.2.2 target of the text behind the scheme |
| `UrlLinks.SameSchemeDropped` | okhttp3-java/src/main/java/okhttp3/HttpUrl.java:1365-1466 | if that text has no scheme or blanks of its own in front, it is parsed like that text alone |
| `UrlLinks.SchemeBehindScheme` | okhttp3-java/src/main/java/okhttp3/HttpUrl.java:1365-1377 | where it does have another scheme the two differ: the link resolves and the text alone is refused |
| `QueryEdits.EditSimulates` | okhttp3-java/src/main/java/okhttp3/HttpUrl.java:1191-1256 | add, set and remove on the stored list are the plain operations on decoded pairs |
| `QueryEdits.RunEdits` | okhttp3-java/src/main/java/okhttp3/HttpUrl.java:1191-1256 | after any sequence of parameter edits the stored list is the encoding of the plain list, null when that is empty |
| `QueryEdits.EditsRefinePlainList` | okhttp3-java/src/main/java/okhttp3/HttpUrl.java:1191-1256 | once built, the decoded list is what the plain list operations give; the stored list is null or non-empty and even |
| `BuilderObject.HttpUrlBuilder.PopSegment` | okhttp3-java/src/main/java/okhttp3/HttpUrl.java:1562-1571 | in place: drop the last segment but keep a trailing slash |
| `BuilderObject.HttpUrlBuilder.PushSegment` | okhttp3-java/src/main/java/okhttp3/HttpUrl.java:1520-1539 | in place: dot segments vanish, double dots pop, an empty last segment is overwritten |
| `BuilderObject.HttpUrlBuilder.ResolvePathText` | okhttp3-java/src/main/java/okhttp3/HttpUrl.java:1490-1515 | the index loop over the input is `ResolvePath` of the slice |
| `BuilderObject.HttpUrlBuilder.AddPathSegmentsText` | okhttp3-java/src/main/java/okhttp3/HttpUrl.java:1120-1129 | the index loop is `AddSegments` |
| `BuilderObject.HttpUrlBuilder.RemoveAllCanonicalQueryParameters` | okhttp3-java/src/main/java/okhttp3/HttpUrl.java:1245-1256 | the backward loop removes exactly the pairs of that name and leaves null for an empty list |
| `BuilderObject.HttpUrlBuilder.ToText` | okhttp3-java/src/main/java/okhttp3/HttpUrl.java:1305-1355 | the appends in order build the printed form |
| `BuilderObject.HttpUrlBuilder.AppendUserInfo` | okhttp3-java/src/main/java/okhttp3/HttpUrl.java:1314-1321 | user name, password after a colon, at-sign, each only when it is there |
| `BuilderObject.HttpUrlBuilder.AppendHost` | okhttp3-java/src/main/java/okhttp3/HttpUrl.java:1323-1332 | the host, in brackets when it holds a colon |
| `BuilderObject.HttpUrlBuilder.AppendPort` | okhttp3-java/src/main/java/okhttp3/HttpUrl.java:1334-1340 | the effective port, unless it is the scheme's default |
| `BuilderObject.HttpUrlBuilder.PathToString` | okhttp3-java/src/main/java/okhttp3/HttpUrl.java:575-580 | a slash before each segment |
| `BuilderObject.HttpUrlBuilder.AppendQueryAndFragment` | okhttp3-java/src/main/java/okhttp3/HttpUrl.java:1344-1352 | query and fragment, each behind its delimiter |
| `BuilderObject.HttpUrlBuilder.ParseAuthorityText` | okhttp3-java/src/main/java/okhttp3/HttpUrl.java:1397-1454 | the authority loop computes user info, host and port, or the exception |
| `BuilderObject.HttpUrlBuilder.ReadUserInfo` | okhttp3-java/src/main/java/okhttp3/HttpUrl.java:1405-1427 | one `@`-terminated piece: the first sets the user name, later ones extend name or password by `%40` |
| `BuilderObject.HttpUrlBuilder.ParseHostText` | okhttp3-java/src/main/java/okhttp3/HttpUrl.java:1434-1452 | host and port (the default one when none is written), or the bad-port or bad-host exception |
| `BuilderObject.HttpUrlBuilder.ParseText` | okhttp3-java/src/main/java/okhttp3/HttpUrl.java:1359-1488 | `parse` on a fresh builder is the parse function, failure for failure and field for field |
| `BuilderObject.HttpUrlBuilder.InheritFrom` | okhttp3-java/src/main/java/okhttp3/HttpUrl.java:1455-1466 | a relative link copies authority and path, and the query when nothing but a fragment follows |
| `BuilderObject.HttpUrlBuilder.ParseSchemeText` | okhttp3-java/src/main/java/okhttp3/HttpUrl.java:1363-1381 | the scheme and what is left after it, or one of two exceptions |
| `BuilderObject.HttpUrlBuilder.ParseTailText` | okhttp3-java/src/main/java/okhttp3/HttpUrl.java:1468-1488 | path, query and fragment of the rest |
| `BuilderObject.HttpUrlBuilder.ParseQueryAndFragment` | okhttp3-java/src/main/java/okhttp3/HttpUrl.java:1473-1487 | query up to `#`, then fragment |
| `BuilderObject.SchemeDelimiterOffset` | okhttp3-java/src/main/java/okhttp3/HttpUrl.java:1577-1602 | the colon after a well-formed scheme, else -1 |
| `BuilderObject.SlashCountAt` | okhttp3-java/src/main/java/okhttp3/HttpUrl.java:1607-1619 | the number of leading slashes and backslashes |
| `BuilderObject.PortColonOffset` | okhttp3-java/src/main/java/okhttp3/HttpUrl.java:1624-1637 | the first colon outside brackets, else the limit |
| `FormBody.FormBuilder.Add` | okhttp3-java/src/main/java/okhttp3/FormBody.java:126-133 | in place: the field is stored encoded, and the list of fields added grows by exactly it |
| `FormBody.FormBuilder.AddEncoded` | okhttp3-java/src/main/java/okhttp3/FormBody.java:135-142 | in place: the stored text is the canonical form, and the field added is what the given text means |
| `FormBody.StoredField` | okhttp3-java/src/main/java/okhttp3/FormBody.java:126-142 | either way the stored text is made of the form alphabet and decodes to the field |
| `FormBody.EncodedFieldKept` | okhttp3-java/src/main/java/okhttp3/FormBody.java:135-142 | text of that alphabet is stored unchanged by `addEncoded` |
| `FormBody.FormBuilder.NameAndValue` | okhttp3-java/src/main/java/okhttp3/FormBody.java:54-64 | `name(i)` and `value(i)` return exactly the i-th field added |
| `FormBody.WriteOrCountBytes` | okhttp3-java/src/main/java/okhttp3/FormBody.java:87-110 | counting leaves the sink alone and returns the number of bytes that writing appends |
| `FormBody.FormTextIsJoin` | okhttp3-java/src/main/java/okhttp3/FormBody.java:97-102 | the body text is the query join of the alternating names and values |
| `FormBody.FormRoundTrip` | okhttp3-java/src/main/java/okhttp3/FormBody.java:87-133 | a receiver that splits and decodes the body gets the added fields back, in order |
| `DispatcherLaws.FoundIsFirst` | okhttp3-java/src/main/java/okhttp3/Dispatcher.java:162-170 | the first call to the host in the running deque followed by the ready one, and none exactly when there is none |
| `Dispatcher.NextKeepsInv` | okhttp3-java/src/main/java/okhttp3/Dispatcher.java:147-262 | every step of every thread keeps the invariant: deques agree with phases without duplicates, counters are exact, one callback, no stuck call |
| `Dispatcher.Run` | okhttp3-java/src/main/java/okhttp3/Dispatcher.java:147-262 | every state that any interleaving reaches satisfies the invariant |
| `DispatcherLaws.CountersExact` | okhttp3-java/src/main/java/okhttp3/Dispatcher.java:197-255 | each counter object equals the number of running async calls that hold it and have not begun finishing |
| `DispatcherLaws.SharedKept` | okhttp3-java/src/main/java/okhttp3/Dispatcher.java:147-170 | without web sockets all live calls to one host hold one counter object |
| `DispatcherLaws.LimitsHold` | okhttp3-java/src/main/java/okhttp3/Dispatcher.java:197-218 | if limits are not lowered once calls exist, the running deque never exceeds `maxRequests`, and without web sockets no host exceeds `maxRequestsPerHost` unfinished running calls |
| `DispatcherLaws.NoStuckCall` | okhttp3-java/src/main/java/okhttp3/Dispatcher.java:197-262 | an eligible ready call exists only while some thread owes a promote; at quiescence a ready call implies a running one |
| `DispatcherLaws.IdleMeansIdle` | okhttp3-java/src/main/java/okhttp3/Dispatcher.java:250-262 | the idle callback fires, once, exactly at the end of a finished call's pass that leaves all three deques empty |
| `DispatcherLaws.FiringsExact` | okhttp3-java/src/main/java/okhttp3/Dispatcher.java:243-262 | over every run the idle callback has been called exactly once for each such end |
| `DispatcherLaws.PassesPaid` | okhttp3-java/src/main/java/okhttp3/Dispatcher.java:94-132 | over every run each finished call, each enqueued call and each change of a limit has had its own pass or is still owed one; the limits are 64 and 5 or the last ones set |
| `DispatcherDrain.CanDrain` | okhttp3-java/src/main/java/okhttp3/Dispatcher.java:147-262 | no run is ever stuck: each has a continuation, without new calls, after which every call has had its callback and nothing runs, waits or is owed |
| `DispatcherDrain.SyncCallRuns` | okhttp3-java/src/main/java/okhttp3/RealCall.java:77-100 | from every reachable state an unused request goes through `execute`, in the sync deque while it runs |
| `DispatcherLaws.PhasesAdvance` | okhttp3-java/src/main/java/okhttp3/RealCall.java:162-206 | a call never goes back a phase, and keeps its request, host, kind and counter |
| `DispatcherLaws.LifeCycle` | okhttp3-java/src/main/java/okhttp3/Dispatcher.java:231-262 | no "Call wasn't in-flight!" in any run, for async and sync calls; each call in at most one deque, at most once; a sync call in its deque exactly between `executed` and `finished`; an async call with exactly one attempted callback when it leaves |
| `DispatcherLaws.CallsUsedOnce` | okhttp3-java/src/main/java/okhttp3/RealCall.java:77-100 | the `executed` flag, in every run: no request is behind two async calls, and none was ever used both for an async call and for `execute`, whether that has returned or not |
| `DispatcherLaws.InOnceOutOnce` | okhttp3-java/src/main/java/okhttp3/Dispatcher.java:203-262 | over every run a call enters the running deque once if it is no longer ready and else never, and `Remove` takes it out once if it has been removed and else never |
| `DispatcherLaws.PromoteOrder` | okhttp3-java/src/main/java/okhttp3/Dispatcher.java:203-216 | promoting the visited call keeps per-host order if and only if no call to its host waits in front of it |
| `DispatcherLaws.PerHostOrder` | okhttp3-java/src/main/java/okhttp3/Dispatcher.java:203-216 | in a run without web sockets calls to each host enter the running deque in enqueue order if and only if no pass visits a call after one to that host that it skipped became eligible |
| `DispatcherLaws.OrderWithQuietPasses` | okhttp3-java/src/main/java/okhttp3/Dispatcher.java:238-241 | per-host order holds in every run without web sockets in which no decrement falls inside a pass |
| `DispatcherBounds.OrderCanFail` | okhttp3-java/src/main/java/okhttp3/Dispatcher.java:203-241 | per-host order is not unconditional: for every host a run without web sockets in which the later call enters first; every call in it is accepted, and submitted in order of promotion after the pass has released the lock |
| `DispatcherBounds.SocketLiftsLimit` | okhttp3-java/src/main/java/okhttp3/Dispatcher.java:162-170 | for every host and every limit m, a run with a single takeover of a web socket's counter that ends with m + 1 unfinished plain calls to the host, with submissions as in `OrderCanFail` |
| `DispatcherSockets.InheritanceExact` | okhttp3-java/src/main/java/okhttp3/Dispatcher.java:147-170 | in every run some plain call comes to hold a web socket's counter if and only if some plain call is enqueued when the first existing call to its host is a web socket |
| `DispatcherSockets.PlainLimitHolds` | okhttp3-java/src/main/java/okhttp3/Dispatcher.java:147-218 | with web sockets too: in a run without such a takeover, and if limits are not lowered once calls exist, no host exceeds `maxRequestsPerHost` unfinished running plain calls |
| `DispatcherObject.DispatcherState.FindExistingCallWithHost` | okhttp3-java/src/main/java/okhttp3/Dispatcher.java:162-170 | the two loops return the first running, then the first ready call with the host |
| `DispatcherObject.DispatcherState.EnqueueCall` | okhttp3-java/src/main/java/okhttp3/Dispatcher.java:147-157 | the critical section is the enqueue step |
| `DispatcherObject.DispatcherState.VisitOne` | okhttp3-java/src/main/java/okhttp3/Dispatcher.java:203-216 | one turn of the loop is the visit step |
| `DispatcherObject.DispatcherState.PromotePass` | okhttp3-java/src/main/java/okhttp3/Dispatcher.java:197-218 | the loop is a full pass; it promotes only eligible ready calls, leaves none that could run, and returns whether anything runs |
| `DispatcherObject.DispatcherState.ExecuteOn` | okhttp3-java/src/main/java/okhttp3/RealCall.java:162-178 | a rejected call is told once, finished, and whatever can then run is rejected in turn |
| `DispatcherObject.DispatcherState.Finished` | okhttp3-java/src/main/java/okhttp3/Dispatcher.java:238-262 | decrement, remove, promote again; the idle callback fires exactly once if the removal left nothing running, and else never, nested calls included |
| `DispatcherObject.DispatcherState.PromoteAndReject` | okhttp3-java/src/main/java/okhttp3/Dispatcher.java:197-226 | with an executor that rejects everything it ends, rejects exactly the eligible ready calls once each, leaves counters, running deque and all other calls as they were, and the idle callback fires once if something was rejected while nothing else ran |
| `AsyncCalls.Execute` | okhttp3-java/src/main/java/okhttp3/RealCall.java:181-206 | exactly one attempted callback whatever throws, `onResponse` exactly when there was a response, and `finished` once, after it |
| `AsyncCalls.ExecuteOn` | okhttp3-java/src/main/java/okhttp3/RealCall.java:162-178 | one `onFailure` and then `finished` exactly when the executor rejected the call |
| `MessageQueues.PushInv` | libraLive/src/main/cpp/common/message_queue.h:39-53 | push keeps every item in exactly one place, the queue in order, and wakes a sleeper |
| `MessageQueues.TryPopInv` | libraLive/src/main/cpp/common/message_queue.h:61-76 | pop moves the oldest item to the consumer's hand, or sleeps only on an empty working queue |
| `MessageQueues.ReleaseInv` | libraLive/src/main/cpp/player/BaseChannel.cpp:32-44 | release empties the hand, and leaves a null alone |
| `MessageQueues.WorkingInv` | libraLive/src/main/cpp/common/message_queue.h:99-111 | switching the queue on or off, and waking, keep the invariant |
| `MessageQueues.ClearInv` | libraLive/src/main/cpp/common/message_queue.h:86-97 | clear releases everything queued |
| `MessageQueues.ReleasedOnce` | libraLive/src/main/cpp/common/message_queue.h:39-97 | an item is released at most once, and never while queued or held |
| `MessageQueues.AllReleased` | libraLive/src/main/cpp/common/message_queue.h:86-97 | when nothing is queued or held everything made has been released |
| `MessageQueues.MessageQueue.PushValue` | libraLive/src/main/cpp/common/message_queue.h:39-53 | in place, with the signal: the object mirrors the push step of the lane |
| `MessageQueues.MessageQueue.PopValue` | libraLive/src/main/cpp/common/message_queue.h:61-76 | in place: one evaluation of the loop is the pop step; the value is the item taken, and it sleeps exactly when the lane does |
| `MessageQueues.MessageQueue.ClearAll` | libraLive/src/main/cpp/common/message_queue.h:86-97 | the draining loop releases every queued item once, in order: the clear step |
| `MessageQueues.MessageQueue.GotoWork` | libraLive/src/main/cpp/common/message_queue.h:99-104 | switch on and signal: the object mirrors the step of the lane |
| `MessageQueues.MessageQueue.BackWork` | libraLive/src/main/cpp/common/message_queue.h:106-111 | switch off and signal: the object mirrors the step of the lane |
| `AudioPipeline.NextInv` | libraLive/src/main/cpp/player/AudioChannel.cpp:100-267 | every step of demuxer, decode thread, player callback and control thread keeps the invariant |
| `AudioPipeline.Run` | libraLive/src/main/cpp/player/AudioChannel.cpp:100-379 | every state that any interleaving reaches satisfies the invariant |
| `AudioPipeline.NothingLostOrFreedTwice` | libraLive/src/main/cpp/player/AudioChannel.cpp:114-267 | each packet and frame ever made is in exactly one of: its maker's hand, queue, consumer's hand, released; items leave each queue in order |
| `AudioPipeline.PopProtocol` | libraLive/src/main/cpp/player/AudioChannel.cpp:221-237 | asleep in pop implies working and empty; a pop that returned 0 implies `isPlaying` is 0; what is decoded or resampled was really popped and not released |
| `AudioPipeline.EverythingReleased` | libraLive/src/main/cpp/player/BaseChannel.cpp:17-30 | after the destructor every frame, and every packet out of the demuxer's hand, has been released exactly once |
| `AudioPipeline.StopEnds` | libraLive/src/main/cpp/player/AudioChannel.cpp:372-379 | once `stop` has switched both queues off nobody is asleep, and every step of the decode thread and of a pending `getPcm` lowers its rank |
| `AudioPipeline.JoinsReturn` | libraLive/src/main/cpp/player/AudioChannel.cpp:372-379 | over any run inside `stop`: at most the decode thread's rank of decode steps, and the callback's rank plus four for each new call of callback steps; when they are taken the joins return |
| `AudioPipeline.FramesBounded` | libraLive/src/main/cpp/player/AudioChannel.cpp:114-191 | in every interleaving the frame queue holds at most 101 frames |
| `AudioRuns.BoundIsExact` | libraLive/src/main/cpp/player/AudioChannel.cpp:114-191 | and a run reaches 101 |
| `AudioRuns.SleepsExactly` | libraLive/src/main/cpp/common/message_queue.h:39-76 | in every interleaving a thread in `pop` is asleep exactly while its queue works and is empty: no lost and no idle wake-up |
| `AudioRuns.DecodesNext` | libraLive/src/main/cpp/player/AudioChannel.cpp:118-189 | with a packet queued and room for a frame, one turn of the loop sends the first packet, releases it and queues the frame |
| `AudioRuns.NoFrameNext` | libraLive/src/main/cpp/player/AudioChannel.cpp:144-180 | without a frame the empty one is released, and the loop goes on after `EAGAIN` and ends after an error |
| `AudioRuns.WaitsWhenFull` | libraLive/src/main/cpp/player/AudioChannel.cpp:119-123 | with more than 100 frames the packets are left alone |
| `AudioRuns.PlaysNext` | libraLive/src/main/cpp/player/AudioChannel.cpp:221-267 | a callback with a frame queued uses the first one and releases it |
| `AudioRuns.CanEnd` | libraLive/src/main/cpp/player/AudioChannel.cpp:100-379 | no run is ever stuck: each has a continuation that ends with the destructor done |
| `Looper.Mailbox.AddMessage` | libraLive/src/main/cpp/looper/Looper.cpp:73-96 | the linked list gets the message at its end, or holds only it after a flush that deleted every old message once; it mirrors the link step |
| `Looper.Mailbox.TakeMessage` | libraLive/src/main/cpp/looper/Looper.cpp:108-117 | the head is unlinked, or the list is empty; it mirrors the take step and hands over the message that step names |
| `Looper.NextInv` | libraLive/src/main/cpp/looper/Looper.cpp:73-128 | every step of posters and worker keeps the invariant |
| `Looper.Run` | libraLive/src/main/cpp/looper/Looper.cpp:54-128 | every state that any interleaving reaches satisfies the invariant |
| `Looper.NoLostWakeup` | libraLive/src/main/cpp/looper/Looper.cpp:73-117 | the list is no longer than tokens available, owed and in hand; a waiting message always has its token |
| `Looper.TokensBalance` | libraLive/src/main/cpp/looper/Looper.cpp:73-117 | the semaphore's balance in every run: tokens there, owed, in hand and spent on an empty list are the messages that wait or were flushed; at most one vain wake-up for each flushed message |
| `Looper.InLinkOrder` | libraLive/src/main/cpp/looper/Looper.cpp:103-127 | messages are dealt with in link order, each at most once, and deleted at most once |
| `Looper.SkippedOnly` | libraLive/src/main/cpp/looper/Looper.cpp:73-128 | only a flush passes a message over; after quitting, what is left is behind the quit message |
| `Looper.DeliveriesGrow` | libraLive/src/main/cpp/looper/Looper.cpp:103-127 | what has been dealt with or flushed stays so, and nothing is dealt with after quitting |
| `Looper.WorkerEnds` | libraLive/src/main/cpp/looper/Looper.cpp:54-67 | over any run without a flush after a quit message: a bound on the worker's steps; when they are taken it has exited; until then it can go on or is owed a token |
| `CacheControl.SecondsBack` | okhttp3-java/src/main/java/okhttp3/internal/http/HttpHeaders.java:401-414 | the value read from any printed integer: itself, 0 when negative, the int maximum when larger, the default beyond a long |
| `CacheControl.SkipWhitespace` | okhttp3-java/src/main/java/okhttp3/internal/http/HttpHeaders.java:387-395 | the loop skips exactly the blanks and tabs |
| `CacheControl.ScanParameter` | okhttp3-java/src/main/java/okhttp3/CacheControl.java:218-234 | quoted or unquoted parameter, and where scanning goes on |
| `CacheControl.ScanToken` | okhttp3-java/src/main/java/okhttp3/CacheControl.java:209-235 | one directive with its parameter, and a position that has advanced |
| `CacheControl.ParseOne` | okhttp3-java/src/main/java/okhttp3/CacheControl.java:207-262 | the position loop computes the token-by-token reading of a header value |
| `CacheControl.Parse` | okhttp3-java/src/main/java/okhttp3/CacheControl.java:172-271 | the fields of all Cache-Control and Pragma headers, and the raw value exactly when one header stands for all |
| `CacheControl.LookupName` | okhttp3-java/src/main/java/okhttp3/CacheControl.java:237-261 | a text is recognised as a directive if and only if it spells its name, in any letter case |
| `CacheControl.HeaderValue` | okhttp3-java/src/main/java/okhttp3/CacheControl.java:279-296 | the appends and the final delete build the items joined by ", " |
| `CacheControl.PrintedReadsBack` | okhttp3-java/src/main/java/okhttp3/CacheControl.java:172-296 | the regenerated value reads back as the same twelve fields, for all values a parse or a builder can give |
| `CacheControl.RoundTrip` | okhttp3-java/src/main/java/okhttp3/CacheControl.java:172-296 | for every header list, reading `toString()` as a single Cache-Control header gives the same twelve fields |
| `CacheDirectives.HeadersRead` | okhttp3-java/src/main/java/okhttp3/CacheControl.java:172-271 | for every header list: each flag is set if and only if some directive has its name in any letter case, whatever its parameter; each number is that of the last such directive, clamped, 2147483647 for a `max-stale` without one and -1 for the others; Cache-Control and Pragma count alike |
| `CacheDirectives.WrittenIsRead` | okhttp3-java/src/main/java/okhttp3/CacheControl.java:207-262 | every list of directives, bare, with tokens or quoted strings, with commas or semicolons and blanks anywhere: the parser reads what was meant |
| `CacheDirectives.AloneIsRead` | okhttp3-java/src/main/java/okhttp3/CacheControl.java:237-261 | each of the twelve names by itself, with the literal fields that it gives |
| `CacheDirectives.PrintedIsWritten` | okhttp3-java/src/main/java/okhttp3/CacheControl.java:279-296 | the printed value is a well-written list with `, ` between the directives that says exactly the fields |
| `CacheControl.CacheControlObject.ToText` | okhttp3-java/src/main/java/okhttp3/CacheControl.java:273-277 | the cached text, or the regenerated one, which is then cached; read back, it gives the fields, on this and every later call |
| `Multipart.CountIsContent` | okhttp3-java/src/main/java/okhttp3/MultipartBody.java:117-201 | for every tree of parts whose declared leaf lengths are true, the length is -1 iff some leaf's is unknown, and otherwise is the number of bytes written |
| `Multipart.PartAnnouncesItsSize` | okhttp3-java/src/main/java/okhttp3/MultipartBody.java:168-179 | the Content-Length line of a part holds the number of bytes its body then writes |
| `Multipart.WritePreamble` | okhttp3-java/src/main/java/okhttp3/MultipartBody.java:148-179 | the pieces in front of a part's body, in order |
| `Multipart.WriteOrCountBytes` | okhttp3-java/src/main/java/okhttp3/MultipartBody.java:134-201 | one routine: counting returns the length and leaves the sink alone, writing appends exactly the body |
| `Multipart.ContentLength` | okhttp3-java/src/main/java/okhttp3/MultipartBody.java:117-121 | `contentLength()` of any body |
| `Multipart.WriteTo` | okhttp3-java/src/main/java/okhttp3/MultipartBody.java:123-126 | `writeTo` of any body |
| `MultipartReader.ReadsBack` | okhttp3-java/src/main/java/okhttp3/MultipartBody.java:134-201 | a reader after section 5.1.1 of RFC 2046 gets each part's header lines and bytes, in order, and the close delimiter, if and only if no part's bytes hold the delimiter |
| `Multipart.MultipartBody.ContentLengthOf` | okhttp3-java/src/main/java/okhttp3/MultipartBody.java:117-121 | the same answer from the cache or not |
| `Multipart.MultipartBody.Send` | okhttp3-java/src/main/java/okhttp3/MultipartBody.java:117-126 | the announced length is the number of bytes then written |
| `NativeImages.AllocNativeImage` | libraLive/src/main/cpp/util/ImageDef.h:44-82 | allocation size, plane offsets and line sizes for each format; nothing for an empty or unknown image |
| `NativeImages.PlanesTile` | libraLive/src/main/cpp/util/ImageDef.h:44-82 | the planes lie one behind the other without a gap, and for even sizes fill the allocation |
| `NativeImages.QuarterPlanesFit` | libraLive/src/main/cpp/util/ImageDef.h:66-75 | nonlinear bound: for odd sizes too, both chroma planes and the half lines beyond them fit the truncated allocation |
| `NativeImages.HalfLineMore` | libraLive/src/main/cpp/util/ImageDef.h:132-144 | how far the whole-plane copy of a chroma plane runs past its rows: half a line, rounded down, when the height is odd, else not at all |
| `NativeImages.TightPlane` | libraLive/src/main/cpp/util/ImageDef.h:125-145 | a source chroma plane that ends its buffer just behind its rows is read within it if and only if the height is even or a line is shorter than two bytes |
| `NativeImages.TightPlaneOverrun` | libraLive/src/main/cpp/util/ImageDef.h:132-133 | one such plane that is read beyond its end |
| `NativeImages.AllocatedIsReadable` | libraLive/src/main/cpp/util/ImageDef.h:44-82 | every image laid out by `AllocNativeImage` can be read by both branches |
| `NativeImages.CopyRows` | libraLive/src/main/cpp/util/ImageDef.h:116-119 | the row loop copies every visible byte and touches nothing outside the plane |
| `NativeImages.CopyPlane` | libraLive/src/main/cpp/util/ImageDef.h:114-123 | both branches make every visible byte of the plane the same and touch only the bytes they may |
| `NativeImages.CopyThree` | libraLive/src/main/cpp/util/ImageDef.h:113-146 | three planes in order: a copy that runs into the next plane is overwritten, and no earlier plane is damaged |
| `NativeImages.CopyNativeImage` | libraLive/src/main/cpp/util/ImageDef.h:93-192 | a missing source, mismatch or unknown format changes nothing; otherwise every pixel equals the source's: four bytes each for RGBA, luma and subsampled chroma for the others, the last byte of odd lines included; all accesses in bounds |

## Left out

- Host canonicalisation (IDNA, IPv6, IPv4) is a function parameter; assumed of it is only that an
  accepted host is not empty, holds none of the URL delimiters, and is its own canonical form when
  printed (`HostLaws`).
- Lone surrogates and UTF-16 indices: strings are sequences of Unicode scalar values. With lone
  surrogates the fast and slow paths of the percent coder differ.
- Charsets other than UTF-8 in `canonicalize` and `FormBody`.
- The builder that a failing operation leaves behind: an operation that throws ends its history, so the
  segment that `setEncodedPathSegment` has stored by then is not seen.
- `java.net.URI` and `URL` conversion beyond `reencodeForUri`, the public suffix list, redaction.
- Digits outside ASCII, which `Long.parseLong` and `Integer.parseInt` accept.
- Integer overflow: of `long` byte counts, and of `int` sizes in the image code; both are unbounded here.
- BuilderObject.HttpUrlBuilder.ParseText: when it fails only the exception is stated, not the fields
  that had been set by then.
- Dispatcher.Run: the executor accepts or rejects each promoted call once, at any later time, which allows
  more runs than the code has: calls of one pass may be submitted in another order, a call may be
  submitted while the pass that promoted it still holds the lock, and the nested `finished` of a
  rejected call may be overtaken. The laws hold in these runs too; the runs of `OrderCanFail` and
  `SocketLiftsLimit` use none of them (`SubmitsAsCoded`). `cancel`, snapshots and executor creation are
  not modelled.
- DispatcherSockets.PlainLimitHolds: one direction only; a run in which a plain call takes over a web
  socket's counter may still stay within the limit.
- `AsyncCall` and `AtomicInteger` objects are entries of tables; which calls share a counter is their
  `counter` field.
- Interceptor chain, transmitter and timeouts: they return or throw.
- The data races on `isPlaying` and on the unlocked `frames.size()`: reads and writes are steps, in some
  order. Resampling, timing, the unused filter path and the OpenSL calls are not modelled; destroying the
  player is taken to wait for its callback.
- AudioPipeline.Run: one consumer for each queue and one start and stop; the demuxer's packets of unmatched
  streams, and the video channel, whose frame-drop path loses a frame, are not part of this model.
- The destruction of the looper's semaphores after `quit`; messages left in the list then are leaked,
  and stay in the list of the model.
- Looper.WorkerEnds: says nothing when a flush follows the quit message, which the flush can delete.
- `CacheControl.Builder`, cookies, disk cache, TLS and client configuration: getters, setters or code that
  is not part of this model.
- Multipart.CountIsContent: a leaf that declares a wrong length is excluded; then the count is wrong too.
- NativeImages.CopyNativeImage: source and destination do not overlap and sizes are positive, as callers
  ensure; a null destination structure, freeing and dumping are not modelled.
