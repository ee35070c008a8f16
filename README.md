# vapr routing and response core in Dafny

This project models the core of vapr, a Node.js HTTP framework, in Dafny and proves properties of the model:

- **Match engine.** This is the engine of `lib/routers/router.js`, which the routers under `lib/routers/` build on. It has an exact-key table for static routes. It also has a trie of parameterised routes, searched depth-first with backtracking, that prefers a literal edge to the wildcard edge at every depth. The older right-to-left engine of `lib/router.js` is modelled as well.
- **Routers built on the engine.**
  - The host router: `host:port` patterns, wildcard labels, and a root-domain alias for each static host.
  - The two path routers: the `:param` grammar, trailing-slash and case normalisers, and the parameter object.
  - `lib/host-router.js` and `lib/path-router.js` require `lib/router.js`, whose class defines none of the registration methods they call. Their routers are modelled on the engine of `lib/routers/router.js`, as `lib/routers/path-router.js` is.
  - The method router.
- **Percent-decoder.** The decoder turns request paths into route keys. It is a UTF-8 state machine that rejects malformed input and keeps `%2F` encoded.
- **Response side.**
  - The header normaliser applied before a response is written: Connection, Transfer-Encoding, Content-Length, Trailer and the bodiless cases.
  - The response object and its setters.
  - The response-array parsers.
  - The case-insensitive header maps: mutable `Headers` and read-only `Fields`.
- **Content-coding plan.** Two request plugins build this plan from Content-Encoding and Transfer-Encoding.

## How the model is organised

Each source entity whose fields are updated in place is a Dafny `class`, and its methods state the new state in their postconditions. These classes are:

- the engine's `Router`, with its static table, node arena, missing handler and `changed` flag;
- each router built on it;
- the decoder's module-level state;
- `Headers`, `Fields` and `Response`;
- the request's `meta` record.

The loops in the source are `while`/`for` loops in the model, each proved against a recursive specification function:

- the labelled-loop searches;
- the decoder's replacer loop;
- the header-map constructor loops;
- `toObject`;
- the decoder-plan loop.

Pure helpers are functions, and lemmas relate them.

Other modelling choices:

- **Trie.** The trie is a sequence of nodes (an arena), and node ids are indices. `Walk`, `RouteAt` and `Search` specify it.
- **Strings.**
  - Path strings are sequences of UTF-16 code units (`Js.Unit`), because the decoder emits `String.fromCharCode` results.
  - Host names, methods and header strings are Dafny `string`s.
- **Source bugs.** The routers and the normaliser behave as the source is written: the trie search retries a wildcard for an empty part, the decoder truncates code points above 0xFFFF, and the Connection filter keeps the names every object inherits. The corrected variants are separate definitions whose intended properties are proved; see "## Findings".
- **JavaScript values.** The values the response parsers inspect are the datatype `JsValues.Value`. It distinguishes what `typeof`, `Array.isArray`, `== null`, truthiness and the prototype checks distinguish.

## Model

Definitions that carry no contract of their own are described through the members that state their properties, and are not rows below:

- `PathPatterns.ValidRoute` models lib/routers/path-router.js:74.
- `HostRouting.ValidRoute`, `HostRouting.NotIP` and `HostRouting.WontMatch` model lib/host-router.js:73-75.
- `HeaderMaps.IsPlain` models lib/state/headers.js:36-39.
- `ContentCodings.ContentCodingsValid` and `ContentCodings.TransferCodingsValid` model lib/plugins/decompress.js:66-67.
- `ResponseNormalization.TransferEncoding` models lib/normalize.js:47-65.
- `PercentDecode.Decoding` specifies lib/decode.js:16-68.
- `HeaderMaps.Filled` gives the outcome of the constructor of lib/state/headers.js:9-15.

| member | source | states |
|---|---|---|
| MatchEngine.Step | lib/routers/router.js:80-82 | the child a route part leads to is a real child of the node (parent link and depth one more) |
| MatchEngine.Router.constructor | lib/routers/router.js:27-32 | a new router has an empty static table, only the root node, no route in the trie, and the given missing handler not yet replaced |
| MatchEngine.Router.AddStaticRoute | lib/routers/router.js:33-37 | succeeds exactly when the key is new; the key then maps to the handler, and a duplicate leaves the table unchanged |
| MatchEngine.Router.AddDynamicRoute | lib/routers/router.js:38-48 | succeeds exactly when no route with these parts exists; afterwards exactly that route maps to the handler and every other route keeps its handler; the tree stays well-formed (parent links, only the root parentless) |
| MatchEngine.Router.Extend | lib/routers/router.js:39-44 | the descent creates missing `wild`/literal children so the parts walk from the root to the returned node, and no route's handler changes |
| MatchEngine.Router.SetMissingRoute | lib/routers/router.js:49-54 | succeeds only on the first call; a later call keeps the first handler |
| MatchEngine.Router.Lookup | lib/routers/router.js:64-71 | an empty key destroys the request; a static hit wins before any tree search; no dynamic keys, or no tree match, runs the missing handler; otherwise the handler is the exit of the node found by the search as written, whose backtracking retries a wildcard even for an empty part |
| MatchEngine.DynamicHandler | lib/routers/router.js:73-102 | the labelled loop returns exactly the exit of the node the recursive depth-first specification `Search` finds (literal child first, then the wildcard) |
| MatchEngine.Backtrack | lib/routers/router.js:87-99 | climbing out of wildcard children and retrying the nearest untried wildcard continues the same depth-first order, keeps `i` equal to the depth of the node, and strictly decreases the search's remaining visits |
| MatchEngine.Descend | lib/routers/router.js:78-84 | one forward step (literal child, or wildcard for a non-empty part) keeps the search result and `i == depth(node)`, and reduces the remaining work |
| MatchEngine.ClimbWild | lib/routers/router.js:88-92 | leaving a wildcard child upward loses no untried alternative |
| MatchEngine.ClimbLiteral | lib/routers/router.js:93-98 | leaving a literal child retries the parent's wildcard next when there is one, and otherwise climbs on |
| MatchEngine.GrowWellFormed | lib/routers/router.js:42-43 | adding a child with `newNode(node)` keeps every parent link consistent |
| MatchEngine.SetExitRoute | lib/routers/router.js:45-46 | setting a node's exit registers exactly the route leading to it and changes no other route |
| MatchEngine.WalkInjective | lib/routers/router.js:38-44 | two different part lists never end at the same node, so one exit belongs to one route |
| MatchEngine.WalkDepth | lib/routers/router.js:76-84 | walking `k` parts from a node lands `k` levels deeper |
| SearchProperties.SearchSound | lib/routers/router.js:73-101 | a node the search returns is reached by a registered route whose every part is the key itself or a wildcard over a non-empty key |
| SearchProperties.SearchFirst | lib/routers/router.js:14-22 | with the non-empty check on every wildcard step, any matching registered route is found, and the found route equals it or has a literal part where it has a wildcard at the first difference |
| SearchProperties.LiteralWins | lib/routers/router.js:80-81 | for the search as written and the corrected one alike, when the literal child at a depth leads to a match, no route through the wildcard at that depth is chosen |
| SearchProperties.NoEmptyKeyAgrees | lib/routers/router.js:82 | for keys with no empty part, the search as written and the corrected search agree |
| SearchProperties.EmptyPartReachesWildcard | lib/routers/router.js:94-96 | the backtracking retry takes a wildcard edge for an empty part: with routes `[*, ""]` and `[*, *, "c"]`, the keys `["x", "", "c"]` match the second as written, but match nothing in the corrected search, nor as written with the second route alone |
| LegacyEngine.DynamicHandler | lib/router.js:42-69 | the right-to-left labelled loop returns exactly the first accepting exit in the specified order (parts read from the last index down, literal child before wildcard, a refusing exit continues the search) |
| LegacyEngine.Backtrack | lib/router.js:54-66 | generalising climbs and retries the nearest wildcard, keeping `i + depth(node) == parts.length` |
| LegacyEngine.Descend | lib/router.js:47-51 | one step down for `parts[i]` (literal child or wildcard, even for an empty part) keeps the search result |
| LegacyEngine.ClimbWild | lib/router.js:55-59 | climbing out of a wildcard child loses no alternative |
| LegacyEngine.ClimbToWild | lib/router.js:60-65 | climbing out of a literal child whose parent has a wildcard: what remains to try is the wildcard's own search for the same part, then what follows the wildcard |
| LegacyEngine.ClimbPast | lib/router.js:60-65 | climbing out of a child whose parent has no wildcard loses no alternative: the parent is one level up with the same remaining search |
| LegacyEngine.ClimbWilds | lib/router.js:55-59 | the inner climb stops at a node that is not its parent's wildcard, keeping `i + depth(node) == parts.length` and everything that remains to try |
| LegacyEngine.NextNode | lib/router.js:48-50 | the next node is a child of the current one, and there is none exactly when the part is not a literal child and there is no wildcard |
| LegacyEngine.Advance | lib/router.js:48-50 | a step down one level keeps what remains to try and strictly reduces the remaining work; a dead end leaves only what follows the node |
| LegacyEngine.Descent | lib/router.js:47-51 | the descent loop either consumes every part, keeping what remains to try, or stops at a dead end whose successors are exactly what remained, with less work left |
| LegacyEngine.Attempt | lib/router.js:46-53 | a found node is the first accepting exit in the specified order; otherwise the node reached has exactly the remaining alternatives, with strictly less work left |
| LegacyEngine.Handle | lib/router.js:32-40 | an empty key runs the missing handler; an accepting static handler ends the request; otherwise missing parts run the missing handler, and else the dynamic search decides; a handler is only taken when it accepts |
| LegacyEngine.SearchSound | lib/router.js:42-69 | a found node is reached by a route matching the parts read right to left, with a wildcard matching any part |
| LegacyEngine.SearchComplete | lib/router.js:42-69 | any matching route with an accepting exit makes the search succeed |
| LegacyEngine.MissingIff | lib/router.js:67 | the missing handler runs exactly when no matching route's exit accepts |
| PercentDecode.HexCharToNumber | lib/decode.js:2 | a hex digit of either case maps to its value 0..15, and the digit is that value's lower- or upper-case digit |
| PercentDecode.ByteAt | lib/decode.js:3 | a `%HH` escape denotes a byte below 256 |
| PercentDecode.Emit | lib/decode.js:54 | as written a code point becomes one unit modulo 0x10000; the corrected emission is a UTF-16 sequence for exactly that code point, which has no `/` for code points from 0x80 |
| PercentDecode.Decoder.constructor | lib/decode.js:4-7 | the state variables start at zero |
| PercentDecode.Decoder.Replacer | lib/decode.js:16-62 | each escape advances the state machine consistently with the specified decoding, and records its position |
| PercentDecode.Decoder.Idle | lib/decode.js:20-48 | with nothing pending: a byte below 0x80 is emitted (`%2F` stays the literal text `%2F`), a lead byte opens a sequence, anything else makes the result empty |
| PercentDecode.Decoder.Pending | lib/decode.js:49-61 | with a sequence open: an adjacent continuation byte adds six bits and completes the code point when due, rejecting overlong and above-0x10FFFF code points; anything else makes the result empty |
| PercentDecode.Decoder.Decode | lib/decode.js:64-68 | the exported decoder returns exactly the specified decoding of its input, whatever state an earlier call left |
| PercentDecode.Decoder.Proceed | lib/decode.js:50-58 | an adjacent continuation byte keeps the state machine on track with the specified decoding, emitting exactly what that decoding emits |
| PercentDecode.Completed | lib/decode.js:52-55 | the last continuation byte of a code point that is neither overlong nor above 0x10FFFF emits it and makes the machine idle |
| PercentDecode.Continued | lib/decode.js:50-57 | any other continuation byte consumes six more bits and the sequence continues, or the input is already invalid |
| PercentDecode.Finish | lib/decode.js:67 | at the end of the input the result is the output so far when no sequence is open, and `''` otherwise |
| PercentDecode.Lead | lib/decode.js:25-47 | 2-, 3- and 4-byte lead bytes set the shift, the minimum code point and the carried high bits |
| PercentDecode.LastContinuation | lib/decode.js:50-55 | the last continuation byte completes the code point, which is emitted unless overlong or above 0x10FFFF |
| PercentDecode.Broken | lib/decode.js:20-61 | a stray continuation byte, a lead of 0xF8 or more, or a non-adjacent or non-continuation byte while pending makes the whole result `''` |
| PercentDecode.DecodePlain | lib/decode.js:66 | text with no `%HH` escape decodes to itself |
| PercentDecode.DecodeKeepsSlashes | lib/decode.js:21-24 | with the corrected emission, a successful decoding has exactly as many `/` as its input |
| PercentDecode.TruncationMakesSlash | lib/decode.js:54 | as written, `%F0%90%80%AF`, which has no `/`, decodes to `/` |
| PercentDecode.PairForFourBytes | lib/decode.js:52-55 | with the corrected emission, `%F0%90%80%AF` decodes to the surrogate pair for U+1002F |
| PercentDecode.OverlongSlash | lib/decode.js:26-30 | the overlong two-byte `%C0%AF` decodes to `''` |
| PercentDecode.OverlongThreeBytes | lib/decode.js:31-38 | an overlong three-byte sequence decodes to `''` |
| PercentDecode.BeyondUnicode | lib/decode.js:39-52 | a four-byte sequence above 0x10FFFF decodes to `''` |
| PercentDecode.StrayBytes | lib/decode.js:50-67 | a lone continuation byte, an unfinished sequence, a sequence interrupted by text, and a 0xF8 lead each decode to `''` |
| PercentDecode.TwoByteExample | lib/decode.js:25-55 | `%C3%A9` decodes to U+00E9 |
| PercentDecode.SlashEscapeExample | lib/decode.js:23 | `a%2fb` decodes to `a%2Fb` |
| PercentDecode.AsciiExample | lib/decode.js:3 | `%41%` decodes to `A%`: a `%` without two hex digits stays literal |
| HostRouting.NewHostRouter | lib/host-router.js:22-27 | the default port is accepted exactly when it is an integer in 0..65535, else TypeError `Invalid default port: <port>`; a new router has empty tables and the 502 handler |
| HostRouting.HostRouter.constructor | lib/host-router.js:25-26 | a router with empty tables, the 502 handler as missing handler, and the default port remembered |
| HostRouting.HostRouter.Host | lib/host-router.js:28-47 | an invalid pattern throws `Invalid hostname`; a port above 65535 throws RangeError; otherwise the canonical pattern (default port appended, lower-cased) is registered: a static one with its `host.:port` alias unless the host is a dotted quad, a wildcard one as its trie route; a duplicate throws `Duplicate host` and registers nothing; earlier registrations are kept |
| HostRouting.HostRouter.Register | lib/host-router.js:36-46 | the static or wildcard branch of `host()` for a canonical pattern, with the duplicate error |
| HostRouting.HostRouter.AddStatic | lib/host-router.js:37-39 | adds the key, and on success its alias unless the host looks like an address; an existing alias keeps its handler |
| HostRouting.HostRouter.NoHost | lib/host-router.js:48-52 | replaces the 502 handler once; a second call throws and changes nothing |
| HostRouting.HostRouter.Route | lib/host-router.js:55-70 | an unlocatable request is destroyed; an exact `host:port` wins; a trie hit is a registered wildcard route matching the reversed labels and the port, a wildcard admitting any label (a non-empty one when no label is empty); IP-looking hosts, and a failed trie search, reach the missing handler |
| HostRouting.StaticKey | lib/host-router.js:55-60 | `''` exactly when the request cannot be located; `.0` for an empty or bracketed hostname; otherwise `hostname:port` |
| HostRouting.WildParts | lib/host-router.js:43 | the trie route of a wildcard pattern has one part per label plus the port, with each `*` as a wildcard |
| HostRouting.PatternParts | lib/host-router.js:43 | the route has one part per label plus one for the port |
| HostRouting.RouteMatchSound | lib/host-router.js:62-70 | a route that matches the reversed request labels and port has as many labels as the request, each matching its label, and a matching port |
| HostRouting.RouteMatchComplete | lib/host-router.js:62-70 | a pattern whose labels and port match the request's gives a route that matches the reversed labels and the port |
| HostRouting.Labels | lib/host-router.js:65-66 | dropping the root-domain label never adds labels |
| HostRouting.WildcardMatch | lib/host-router.js:62-70 | a wildcard pattern's route matches a request's dynamic keys exactly when the pattern matches label for label and port for port, a `*` standing for exactly one non-empty label |
| HostRouting.CanonicalParts | lib/host-router.js:32-34 | a valid pattern, once canonical, splits on `:` into exactly its lower-cased hostname and port |
| HostRouting.NotIPLower | lib/host-router.js:74 | lower-casing does not change what `notIP` says |
| HostRouting.AliasUnlessIPv4 | lib/host-router.js:74-75 | for a valid static pattern, `notIP` holds exactly when the hostname is not a dotted-quad address |
| HostRouting.AddressHasNoKeys | lib/host-router.js:64 | a request to a dotted-quad address has no dynamic keys |
| HostRouting.UnsupportedHostNoKeys | lib/host-router.js:58-64 | the key `.0` of an unsupported host has no dynamic keys |
| PathPatterns.Params | lib/routers/path-router.js:31 | one parameter name (or `''`) per pattern segment |
| PathPatterns.DynamicParts | lib/routers/path-router.js:38 | one part per key segment: a wildcard where the pattern has a parameter, the key's segment otherwise |
| PathPatterns.ParamIndexesListed | lib/routers/path-router.js:39 | the listed `(name, index)` pairs are exactly the named parameters, each with its segment position plus one |
| PathPatterns.NoSlash | lib/routers/path-router.js:71 | removes exactly one trailing `/` from strings longer than one unit and otherwise returns the string unchanged; the first unit is kept |
| PathPatterns.DynamicKeys | lib/routers/path-router.js:57-60 | no keys exactly for a key of length one |
| PathPatterns.PartsAlign | lib/path-router.js:32-39 | parameter positions from the raw pattern and parts from the normalised key line up whenever the two have equally many `/` |
| PathPatterns.NoSlashCount | lib/routers/path-router.js:71 | `noSlash` removes at most one `/` and no other unit |
| PathRouting.WrapWithParams | lib/routers/path-router.js:62-68 | the loop builds exactly the specified params object from the raw request segments |
| PathRouting.ParamsObjectHas | lib/routers/path-router.js:64-65 | a name is present in the params object exactly when it is listed and is not `__proto__` |
| PathRouting.ParamsObjectLast | lib/routers/path-router.js:64-65 | a name's last listing decides its value: the segment at that index, `undefined` past the end |
| PathRouting.ParamsObjectLookup | lib/routers/path-router.js:64-65 | the params object holds exactly the listed names other than `__proto__`, each with the segment at its last listing's index (`undefined` past the end) |
| PathRouting.ParamIndexesOrdered | lib/routers/path-router.js:39 | parameter indexes increase along the list |
| PathRouting.ParamValue | lib/routers/path-router.js:62-65 | each uniquely named parameter gets the raw request segment at its position plus one |
| PathRouting.PathRouter.StaticKey | lib/routers/path-router.js:51-55 | an unlocatable request gives the empty key; any other gets its pathname decoded as lib/decode.js does, normalised and maybe stripped of a trailing `/` |
| PathRouting.PathRouter.constructor | lib/routers/path-router.js:22-26 | empty tables, the 404 handler, and the trailing-slash choice remembered |
| PathRouting.PathRouter.Route | lib/routers/path-router.js:27-43 | an invalid pattern throws; a pattern decoding (as lib/decode.js does) to `''` throws `Pathname contains invalid encodings`; a pattern without parameters becomes a static route, and any other a trie route with wildcards at the parameter positions (wrapped with its parameter indexes when it is a route object); a duplicate throws `Duplicate route` and nothing changes |
| PathRouting.PathRouter.NotFound | lib/routers/path-router.js:44-48 | replaces the 404 handler once; a second call throws |
| PathRouting.PathRouter.Serve | lib/routers/path-router.js:51-68 | an empty key destroys the request; an exact route wins; a trie hit is a registered route matching the segments, a parameter admitting any segment (a non-empty one when no segment is empty); a key of length one, or a failed trie search, reaches the missing handler; a wrapped handler receives the params object built from the raw pathname |
| PathRouting.UndecodableDestroyed | lib/routers/path-router.js:53-54 | a request path that fails to decode gives the empty key, so the request is destroyed |
| LegacyPathRouting.Choose | lib/path-router.js:23-24 | case is ignored exactly unless `respectCase`, and one trailing slash exactly unless `respectTrailingSlash` |
| LegacyPathRouting.NoCaseNoSlashCommutes | lib/path-router.js:63-65 | the default normaliser is `noCase(noSlash(s))` and equals `noSlash(noCase(s))` |
| LegacyPathRouting.CaseVariantsAgree | lib/path-router.js:63-65 | under a case-ignoring normaliser every case variant gets the same key, and lower-casing is idempotent |
| LegacyPathRouting.LegacyPathRouter.StaticKey | lib/path-router.js:51-55 | an unlocatable request gives the empty key; any other gets its pathname decoded as lib/decode.js does, decomposed and normalised |
| LegacyPathRouting.LegacyPathRouter.constructor | lib/path-router.js:23-27 | empty tables, the 404 handler, and the chosen normaliser |
| LegacyPathRouting.LegacyPathRouter.Define | lib/path-router.js:28-43 | an invalid pattern throws; an undecodable one throws `Pathname contains invalid encodings`; a static or parameterised route is added, and a duplicate throws `Duplicate route` and changes nothing |
| LegacyPathRouting.LegacyPathRouter.NotFound | lib/path-router.js:44-48 | replaces the 404 handler once; a second call throws |
| LegacyPathRouting.LegacyPathRouter.Serve | lib/path-router.js:51-60 | an empty key destroys the request; an exact route wins; a trie hit is a registered route matching the segments, a parameter admitting any segment (a non-empty one when no segment is empty); a key of length one, or a failed trie search, reaches the missing handler |
| MethodRouting.NamesDistinct | lib/routers/method-router.js:19-26 | each verb method registers its own non-empty upper-case name, and no two verbs share one |
| MethodRouting.MethodRouter.constructor | lib/routers/method-router.js:16-18 | an empty method table and the 405 handler |
| MethodRouting.MethodRouter.AddMethod | lib/routers/method-router.js:34-38 | registers the verb's name; a second registration throws `Duplicate method: <name>` and keeps the first handler |
| MethodRouting.MethodRouter.NoSuchMethod | lib/routers/method-router.js:27-31 | replaces the 405 handler once; a second call throws |
| MethodRouting.MethodRouter.Serve | lib/routers/method-router.js:40-42 | a registered method runs its handler; any other non-empty method reaches the missing handler, because no dynamic keys exist |
| ResponseNormalization.ToObject | lib/normalize.js:123-127 | the loop builds exactly the specified object, later entries overriding earlier ones |
| ResponseNormalization.ObjectOfLookup | lib/normalize.js:123-127 | the object holds exactly the given names other than `__proto__`, with their values when names are distinct |
| ResponseNormalization.NonEmpty | lib/normalize.js:71-75 | the filtered list keeps exactly the non-empty options |
| ResponseNormalization.KeptExactly | lib/normalize.js:129-131 | the corrected filter keeps an option exactly when it is listed and is `close` or names a present header (none when legacy) |
| ResponseNormalization.KeptAsWrittenExactly | lib/normalize.js:129-131 | the filter as written keeps an option exactly when it is listed and is `close`, `constructor`, `__proto__` or names a present header (none when legacy) |
| ResponseNormalization.ConnectionOptionsAsWritten | lib/normalize.js:25-33 | the Connection options the normaliser keeps are exactly those the filter as written accepts, and over a legacy protocol version only `close`, `constructor` and `__proto__` survive |
| ResponseNormalization.ConnectionOptionsAllowed | lib/normalize.js:25-33 | with the corrected filter, the kept Connection options are exactly the allowed ones, and only `close` survives over a legacy protocol version |
| ResponseNormalization.InheritedOptionKept | lib/normalize.js:129-135 | as written, the option `constructor` survives even over a legacy protocol version, because the empty object inherits it |
| ResponseNormalization.TrailingChunkedRun | lib/normalize.js:55 | the counted suffix is exactly the run of trailing `chunked` entries |
| ResponseNormalization.FirstNotChunkedReversed | lib/normalize.js:54-55 | the index `findIndex(notChunked)` finds in the reversed list is the length of that run, or -1 when every entry is `chunked` |
| ResponseNormalization.CodingsTrimmed | lib/normalize.js:56-64 | the Transfer-Encoding list loses its trailing `chunked` run, keeping one for HEAD; an all-`chunked` list becomes `chunked` for HEAD and empty otherwise |
| ResponseNormalization.CodingsSplice | lib/normalize.js:57-58 | the in-place `reverse().splice(...)` computes that trimmed list |
| ResponseNormalization.ChunkedExactlyOnceAtEnd | lib/normalize.js:119 | a streamed HTTP/1.1 response's Transfer-Encoding ends in exactly one `chunked` |
| ResponseNormalization.FixHeaders | lib/normalize.js:13-33 | the copied headers after the Date fix and the Connection filter as written (inherited names kept, the header removed when nothing is left) are exactly the prelude |
| ResponseNormalization.BodilessHeaders | lib/normalize.js:36-42 | `trailer` and `transfer-encoding` go; `content-length` stays exactly when present, the code is not 204/304 and the value is all digits; nothing else changes |
| ResponseNormalization.HeadHeaders | lib/normalize.js:69-85 | a digit-only `content-length` stays and suppresses `transfer-encoding`, which otherwise carries the computed value; `trailer` is re-normalised or removed; nothing else changes |
| ResponseNormalization.ChunkedHeaders | lib/normalize.js:112-119 | `content-length` goes, `transfer-encoding` ends in `chunked`, `trailer` lists the trailer names exactly when there are trailers |
| ResponseNormalization.Normalize | lib/normalize.js:10-121 | code and message pass through; the bodiless, HEAD, unstreamed, legacy-streamed and chunked cases each give the stated body, trailers and framing headers (HEAD re-normalises or drops `trailer` and keeps a digit-only `content-length` as it was; a legacy stream keeps `trailer` as it was), and every other header is the prelude's, filtered as written |
| ResponseNormalization.WithBody | lib/normalize.js:90-120 | an unstreamed body forces `content-length: 0` and drops `trailer`; a legacy stream closes the connection, drops `content-length` and keeps `trailer` as it was; an HTTP/1.1 stream is chunked with its trailers |
| ResponseState.NormalizeCode | lib/state/response.js:94-98 | accepts exactly a known code of at least 200; a non-number throws TypeError, any other number RangeError |
| ResponseState.NormalizeMessage | lib/state/response.js:100-107 | accepts printable ASCII or tab text, and `null`/`undefined` as the code's default text; other strings and non-strings throw the two TypeErrors |
| ResponseState.NormalizeBody | lib/state/response.js:109-118 | accepts exactly null, a Buffer, a promise or a river; `null` becomes no body and only a river is a stream |
| ResponseState.ParseLayout | lib/state/response.js:65-88 | a parsed layout has a known code and at most four elements; a message-slot object shifts the slots and leaves the default message; headers are never an array |
| ResponseState.LayoutRejections | lib/state/response.js:80-88 | an unnested body and extra elements throw, naming the extra element's index |
| ResponseState.Response.constructor | lib/state/response.js:21-33 | a response with a known code, valid message, and its own header and trailer maps |
| ResponseState.Response.SetCode | lib/state/response.js:43-48 | an invalid code throws and changes nothing; a valid one is stored, and the message follows the new default only if it equalled the old default |
| ResponseState.Response.SetMessage | lib/state/response.js:49-51 | a valid message is stored, nullish resets it to the default, anything else throws and changes nothing |
| ResponseState.Response.SetBody | lib/state/response.js:52-54 | a valid body is stored, anything else throws and changes nothing |
| ResponseState.Construct | lib/state/response.js:21-33 | a number must be a known code (else RangeError) and gives the default message, empty maps and no body; an array goes through the layout parser; anything else throws TypeError naming its type |
| ResponseState.ParseArray | lib/state/response.js:65-92 | layout errors propagate, then header-map, trailer-map and body errors in that order; a success has the layout's code, message and body, and header and trailer maps holding exactly what their constructors build (empty for a nullish slot) |
| ResponseArray.Parse | lib/response.js:7-35 | a success has a known numeric code, a non-empty message, headers that are nullish or a non-array object, and trailers that are nullish or an object |
| ResponseArray.Shift | lib/response.js:13-21 | a message slot that is not a string, object or array throws naming `response[1]`; a bad headers slot throws naming `response[2]`; a success keeps the code, has a non-empty message whenever the default text is non-empty, non-array object or nullish headers, and object or nullish trailers |
| ResponseArray.Unwrap | lib/response.js:22-28 | array headers are the body pair one slot earlier; otherwise a body that is neither nullish nor an array throws naming its slot as `to be an array` |
| ResponseArray.Finish | lib/response.js:29-33 | the body pair is split into body and trailers, trailers that are not an object throw naming `[1]` of the slot, and an empty or missing message becomes the default text |
| ResponseArray.ParsersAgree | lib/response.js:7-35 | whenever the response object's parser accepts an array with object or nullish headers and trailers, this parser accepts it with the same code, headers, body and trailers, the empty message replaced by the default text |
| ResponseArray.UnwrappedBodySlot | lib/response.js:26-28 | a non-array body in slot 3 is reported as `response[3]` |
| ResponseArray.ShiftedBodySlot | lib/response.js:13-28 | with the message left out, the same body is reported as `response[2]` |
| ResponseArray.BadTrailersSlot | lib/response.js:22-32 | bad trailers in a pair at slot 1 are reported as `response[1][1]` |
| HeaderMaps.ClassName | lib/state/headers.js:41-47 | the class name reported for a non-plain object is never empty |
| HeaderMaps.SetEntryWellKeyed | lib/state/headers.js:25-29 | a successful set keeps every text value under a lower-case key |
| HeaderMaps.PopulatedLookup | lib/state/headers.js:10-15 | after construction, each own key reads back its value through the lower-cased name of its last case variant |
| HeaderMaps.PopulatedKeeps | lib/state/headers.js:10-15 | construction touches no key that no property lower-cases to |
| HeaderMaps.PopulatedFails | lib/state/headers.js:10-28 | construction fails exactly when some value is not a string (or, for trailers, a promise), with the value TypeError |
| HeaderMaps.Headers.constructor | lib/state/headers.js:9-16 | a new map is empty |
| HeaderMaps.Headers.Fill | lib/state/headers.js:10-16 | nullish gives an empty map; a non-object or non-plain object throws the two TypeErrors; a plain object sets each own key in turn |
| HeaderMaps.Headers.Get | lib/state/headers.js:17-20 | a non-string name throws; otherwise an entry is found exactly when the lower-cased name is stored |
| HeaderMaps.Headers.Has | lib/state/headers.js:21-24 | a non-string name throws; otherwise agrees with `get` |
| HeaderMaps.Headers.Set | lib/state/headers.js:25-29 | stores the value under the lower-cased name; a trailer promise is stored pending; a non-string name or value throws and changes nothing |
| HeaderMaps.Headers.Delete | lib/state/headers.js:30-33 | a non-string name throws; otherwise removes the lower-cased name and reports whether it was present |
| FieldMaps.Fields.constructor | lib/state/fields.js:11-14 | the loop stores exactly the specified map of trimmed values |
| FieldMaps.TrimmedLookup | lib/state/fields.js:13 | each key reads back its last listing's value, trimmed |
| FieldMaps.TrimmedKeys | lib/state/fields.js:13 | the map holds exactly the listed keys, none lower-cased |
| FieldMaps.Fields.Get | lib/state/fields.js:15-18 | a non-string name throws; otherwise found exactly when the lower-cased name is stored |
| FieldMaps.Fields.Has | lib/state/fields.js:19-22 | a non-string name throws; otherwise agrees with `get` |
| FieldMaps.Fields.Set | lib/state/fields.js:23-25 | always throws `This map object is read-only` |
| FieldMaps.Fields.Delete | lib/state/fields.js:26-28 | always throws `This map object is read-only` |
| FieldMaps.Fields.Clear | lib/state/fields.js:29-31 | always throws `This map object is read-only` |
| FieldMaps.MixedCaseUnreachable | lib/state/fields.js:13-22 | a key stored with an upper-case letter is reached by no query name |
| FieldMaps.GetTrimmed | lib/state/fields.js:11-18 | a lower-case key reads back its trimmed value through every case variant of its name |
| ContentCodings.PluginOptions | lib/plugins/decompress.js:18 | the stored options are the caller's with `info` forced to false |
| ContentCodings.ChunkedOnlyLast | lib/plugins/decompress.js:67 | in a valid Transfer-Encoding every piece but the last is a content coding, so `chunked` can only come last |
| ContentCodings.PieceName | lib/plugins/decompress.js:66-67 | a valid piece, trimmed and lower-cased, is one of the allowed names |
| ContentCodings.Expected | lib/plugins/decompress.js:23-46 | 415 exactly for an invalid Content-Encoding; 501 exactly for a valid or absent one with an invalid Transfer-Encoding; nothing when neither header is present; otherwise the plan is the decoders of the reversed listing with the given options |
| ContentCodings.PlanIsReversedListing | lib/plugins/decompress.js:39-44 | reversing the decoders equals taking the decoders of the reversed listing |
| ContentCodings.NoDecoderForOthers | lib/plugins/decompress.js:40-42 | `identity` and `chunked` entries add no decoder |
| ContentCodings.TransferUndoneFirst | lib/plugins/decompress.js:37-44 | the plan undoes the Transfer-Encoding codings first, then the Content-Encoding ones, each last-applied first |
| ContentCodings.Decompressors | lib/plugins/decompress.js:38-44 | the decoder loop yields one gunzip or inflate decoder per `gzip` or `deflate` listing, in listing order |
| ContentCodings.CollectPlan | lib/plugins/decompress.js:23-46 | the validation and the decoder loop give exactly the expected outcome |
| ContentCodings.Decompress | lib/plugins/decompress.js:19-47 | a rejection returns its status and stores nothing; a plan is stored in the decompress slot with `info: false`; the other slot is untouched |
| ContentCodings.DecodeBefore | lib/plugins/decode.js:8-30 | the same outcome as the decompress plugin, stored in the decode slot |
| ContentCodings.Meta.constructor | lib/state/request.js:24 | no plan is stored at first |

## Left out

- I/O and side effects are not modelled. Handlers are a type parameter and lookups return a tagged outcome (destroyed, handled, missing). This covers `res.writeHead`, `req.destroy`, draining a river, and the process-global `shared.params` slot.
- `lib/locate.js` is not part of this model. A request's location (hostname, port, pathname) or its absence is an input.
- The `typeof` checks on handlers and patterns are ruled out by the Dafny types. This covers "Expected ... handler to be a function", "Expected pathname to be a string", "Expected hostname to be a string" and "Expected defaultPort to be a number". Likewise the host router's non-integer default port is left out, because its port is an `int`.
- `String.prototype.normalize` (NFC and NFD) is a function parameter of each path router.
- `toLowerCase` and `trim` are ASCII lower-casing and the JavaScript whitespace set.
- `Date` parsing in the normaliser is a function parameter.
- `http.STATUS_CODES` is a code-to-text map parameter.
- Bodies are tags: no body, bytes, promise, stream. River and zlib streams are not modelled: `River.one`, `pump`, the decoder streams, and the `read()` override of the decompress plugin.
- The response header and trailer maps are not checked to be plain objects when the layout parser runs, and thenables other than promises are not modelled.
- Object and `Map` key order is the order of the given entries. The integer-like keys that `Object.keys` lists first are not reordered.
- `lib/state/request.js`, `lib/request.js` and `lib/plugins/input.js` are not part of this model. They are event- and promise-driven body consumption.
- `lib/proxy-router.js` is not part of this model. It depends on `url.parse`, is not exported, and reassigns a `const`.
- `lib/state/read-only-map.js`, `lib/state/frozen-map.js` and `lib/state/trailers.js` are not part of this model, except the trailer map's promise branch, which is in `HeaderMaps.Headers.Set`. `Object.freeze` is modelled by `const` fields.
- FieldMaps.Fields.constructor: values are strings. A header whose value is an array, which `trim` would reject, is not modelled.
- `lib/state/fields.js` exports `ReadOnlyMap`, which it never declares. The model gives the class as declared.
- The application glue, stubs and `lib/shared.js` are not part of this model.
- PathRouting.PathRouter.Route: the error texts stop before the pathname that the source appends. Paths are code-unit sequences that may hold lone surrogates, so they are not Dafny strings.
- PathRouting.PathRouter.Route: lib/route.js:14-21 defines no static `isRoute`, so as written `Route.isRoute(handler)` at lib/routers/path-router.js:39 throws a TypeError for every pattern with a parameter, after validation and decoding and before anything is registered. The model's `isRoute` parameter stands for the intended check, and the registration of parameterised routes and `PathRouting.WrapWithParams` model code that is not reached as written.
- LegacyPathRouting.LegacyPathRouter.Define: the error texts stop before the pathname, for the same reason.
- PathRouting.PathRouter.Serve: for a trie hit it states that the handler belongs to a registered route matching the keys. Which route wins is stated by `MatchEngine.Router.Lookup` and `SearchProperties.SearchFirst`.
- LegacyPathRouting.LegacyPathRouter.Serve: the same as `PathRouting.PathRouter.Serve`.
- HostRouting.HostRouter.Route: the same as `PathRouting.PathRouter.Serve`. The strict match (a `*` only for a non-empty label) is stated for requests without an empty label. Host patterns have no empty label, so the trie has no empty literal edge and the strict match holds for every request; that trie invariant is not proved.
- HostRouting.HostRouter: lib/host-router.js requires lib/router.js, whose class has none of the `addStaticRoute`, `addDynamicRoute` and `setMissingRoute` methods it calls, so as written every `host()` that passes validation, and every `noHost()`, throws a TypeError. The model builds the router on the engine of lib/routers/router.js instead; its requests are therefore not handled as lib/router.js:32-40 would handle them (empty key destroyed, not passed to the missing handler; search left to right).
- LegacyPathRouting.LegacyPathRouter: lib/path-router.js has the same dependency on lib/router.js, and is modelled on the same engine for the same reason; as written, `define()` throws once a pattern passes validation, and `notFound()` always throws.
- HostRouting.DynamicKeys: for a key without `:`, the source pushes `undefined` as the port and the model pushes the empty key. Neither matches any host route.
- ResponseState.Construct: for an array it states the code, message and body. The header and trailer contents are stated by `ResponseState.ParseArray`.
- ResponseState.ParseLayout: it states the parsed layout's properties rather than every field. `ResponseState.LayoutRejections` and `ResponseState.LayoutOmissions` pin down concrete layouts.
- ResponseArray.Parse: it states the result's properties rather than every field. `ResponseArray.ParseOmissions`, the slot lemmas and `ResponseArray.ParsersAgree` pin down concrete inputs and its agreement with the response object's parser.

## Findings

| source | as written | input that shows it | evidently intended | confidence | as-written member | corrected member |
|---|---|---|---|---|---|---|
| lib/decode.js:54 | `String.fromCharCode(carry)` truncates code points above 0xFFFF to 16 bits | `%F0%90%80%AF` (U+1002F) decodes to `/`, adding a path separator to a route key and shifting parameter positions | emit the code point itself, as a surrogate pair (`String.fromCodePoint`), so decoding never adds a `/` | not executed | PercentDecode.TruncationMakesSlash | PercentDecode.DecodeKeepsSlashes |
| lib/routers/router.js:94 | the backtracking retry moves to `node.wild` without the non-empty check that the forward step makes at line 82 | routes `/:a/` and `/:a/:b/c` with `respectTrailingSlash`, request `/x//c`: the keys `["x", "", "c"]` match the second route with `b` empty | a wildcard never matches an empty part, on retry as in the forward step | not executed | SearchProperties.EmptyPartReachesWildcard | SearchProperties.SearchFirst |
| lib/normalize.js:129-135 | `new Empty` inherits `constructor` (and `__proto__`), so `this[option] !== undefined` holds for those names | a legacy (HTTP/1.0) response with `connection: constructor` keeps the option | only `close`, or the name of a present header, is kept | not executed | ResponseNormalization.InheritedOptionKept | ResponseNormalization.ConnectionOptionsAllowed |
