# A model of the local Nix binary-cache proxy and the action's key and cleanup rules

The repository is a GitHub Action that keeps a Nix store in the Actions
cache. This model covers its decision logic, with the network, the
filesystem and the output of `nix` supplied as inputs:

- **The proxy as written in `src/proxy.ts`** (module `SourceProxy`). The
  substituter list is read once at startup from `nix config show
  substituters`. A GET or HEAD probes the substituters in order with a
  `fetch` HEAD and takes the first `ok` one. A HEAD then answers with the
  probe's status. A GET is forwarded to that substituter's host on port 443,
  and the answer is relayed, or 502 "Bad Gateway" is sent on an error. When no
  substituter has the path, the local store under `/tmp/nix-cache` answers:
  404 "Not Found" when nothing is there, otherwise 200 with a content type
  from the suffix table and a `Content-Disposition` naming the file. A PUT
  creates the parent directory and writes the body, then answers 201
  "Created".
- **The proxy as shipped in `dist/proxy.js`** (module `BuiltProxy`). The
  substituter list starts empty and a POST to `/substituters` replaces it.
  A GET or HEAD asks each substituter directly with an `https.request`. The
  first answer whose status is set, non-zero and at most 299 is passed on
  with its status, its headers and (for a GET) its body. The local fallback
  differs for HEAD (200 with no headers, or 404 "not found"). Every exception
  inside the handler becomes 500 "internal server error". This includes a
  substituter that is not a valid URL, a request error and the ten-second
  timeout. The exception is an error of a PUT's write stream, which is
  raised outside the `try`.
- **`getKey` of `src/key.ts`** (module `CacheKey`). The user's key wins.
  Otherwise the key is "nix-store-<platform>-<arch>-<hash>", built from the
  trimmed output chunks of `nix hash file flake.lock`. It is
  "nix-store-<platform>-<arch>" when that hash is empty, and
  "nix-store-default" when the command throws.
- **`main` of `src/cleanup.ts`** (module `Cleanup`). It optimises the store,
  measures its size, collects garbage only when the size is strictly above
  `max-size` (5000000000 by default) and saves the cache. The first step
  that throws ends the run, and an `Error` is reported through `setFailed`.

Shared pieces live in their own modules:

- `Js`: `trim`, `split` on one character, `parseInt(s, 10)`, and
  `JSON.stringify` of a string array together with a reader that inverts it.
- `NodePath`: `path.join` onto the root, `dirname`, `basename` and
  `parse().ext`.
- `Url`: the part of the WHATWG `URL` constructor that resolves a request
  path against a substituter, and `hostname`.
- `Store`: the directory tree as a value, with `existsSync`,
  recursive `mkdirSync`, a "w+" write and a read.
- `Http`: requests, replies, outgoing calls and the network oracle, plus
  the local-file reply both versions share.
- `Substituters`: the parse of the list, and the generic first-match walk
  `Scan` with the calls it makes (`Contacts`).

Each handler is a `class Server` whose fields are the state the source
keeps: the substituter list and the store. Its methods are proved against
specification functions:

| method | specification |
|---|---|
| `Handle` | `Respond` |
| `ResolveRead` | `Read` |
| `Save` | `Put` |
| `Refresh` | `Post` |

The specification functions compute and carry no contract of their own.
What they promise is stated by the lemmas about them: `Probe` by `HitOf`,
`HitWhen`, `ThrowsWhen` and `PassesWhen`; `Read` by `FirstOkProbeWins`,
`FirstHitWins`, `ReadStops`, `ReadFallsBack` and `FallbackToStore`; `Put`
by `PutThenGet`, `PutKeepsOtherFiles` and `PutKeepsOtherRequests`; `Post` by `RefreshReplaces`,
`RefreshFailureKeepsList` and `OtherPostNotFound`; `Respond` by
`WhenUnanswered` and the lemmas above; `Cleanup.Cleanup` by `StepOrder`,
`GcIffExceeds` and `CompletedRun`; `Store.Exists` by the contracts of
`Store.ReadFile` and `Http.ServeFile`.

The `for` loop over the substituters is the method `Walk`, and its loop
invariant ties it to `Scan`. A handler also returns the calls it made, in
order. That is how "later substituters are never contacted" becomes a
statement about the result. How a request ends is an `Outcome`:

- `Answered(reply)`: a reply was written.
- `Unanswered`: the handler returned without writing anything.
- `Escaped`: an exception left the handler.

Notes on the code's behaviour, which the model follows:

- In `src/proxy.ts`, a probe that throws does not move on to the next
  substituter. This covers an invalid substituter URL and a failing
  `fetch`. The rejection leaves the handler and nothing answers the client
  (`SourceProxy.ProbeFailureEscapes`).
- In `dist/proxy.js`, a failing substituter request does not move on to the
  next substituter either. It ends the request with 500
  (`BuiltProxy.FailureAnswers500`).
- In both versions, a request with no URL, or with a method that has no
  branch, is never answered (`WhenUnanswered`).
- An error of the write stream of a PUT is not caught by the `try` in
  `dist/proxy.js`, because it is raised asynchronously (`Escaped`).
- In `src/cleanup.ts`, a thrown value that is not an `Error` is swallowed
  without `setFailed` (`Report.Silent`).

## Model

| member | source | states |
|---|---|---|
| Js.Trim | src/proxy.ts:41 | `trim` never lengthens a string and leaves no white space at either end |
| Js.TrimOf | src/proxy.ts:41 | `trim` removes exactly the white space around a trimmed middle: `Trim(a + m + b) == m` |
| Js.TrimTrimmed | src/proxy.ts:41 | a string with no white space at either end is its own trim |
| Js.TrimIdempotent | src/key.ts:15 | trimming twice is trimming once |
| Js.TrimEmpty | src/key.ts:15 | a trimmed chunk is empty exactly when the chunk is all white space |
| Js.Split | src/proxy.ts:40 | `split(" ")` gives at least one piece, no piece holds the separator, and joining the pieces with it gives back the input |
| Js.SplitJoin | src/proxy.ts:40 | splitting undoes joining when no part holds the separator |
| Js.ParseIntCases | src/cleanup.ts:14 | nothing left or a non-sign, non-digit first character after white space gives NaN; a leading digit a non-negative number; only a minus sign a negative one |
| Js.DigitPrefix | src/cleanup.ts:14 | the digits `parseInt` reads are the longest run of leading digits |
| Js.DecimalValue | src/cleanup.ts:14 | the printed numeral of `n` denotes `n` |
| Js.ParseIntOfDigits | src/cleanup.ts:14 | `parseInt` of digits followed by a non-digit is the value of the digits |
| Js.ParseIntOfDecimal | src/cleanup.ts:14 | `parseInt` reads a printed number back, whatever non-digit text follows it |
| Js.ParseIntOfNumeral | src/cleanup.ts:19 | `parseInt` reads a printed number back |
| Js.Stringify | dist/proxy.js:156 | the JSON text of a list is bracketed, and it is "[]" exactly for the empty list |
| Js.ReadEscaped | dist/proxy.js:156 | a string escaped as `JSON.stringify` escapes it reads back to itself, and the reader stops at its closing quote |
| Js.ReadItemsOf | dist/proxy.js:156 | the items of a stringified array read back to the list |
| Js.StringifyRoundTrip | dist/proxy.js:156 | the JSON body of a refresh decodes to exactly the list, in order |
| NodePath.JoinInjective | src/proxy.ts:100 | different normalised request paths (a leading slash, no empty, "." or ".." segment) land on different files under the root |
| NodePath.Basename | src/proxy.ts:114 | the base name holds no slash |
| NodePath.Dirname | src/proxy.ts:133 | the directory is ".", "/" or "//", or a proper prefix of the path that ends just before a slash |
| NodePath.Ext | src/proxy.ts:110 | the extension of a path is empty or a dot followed by no other dot, and it holds no slash |
| NodePath.ExtOfDotted | src/proxy.ts:110 | a name made of a non-empty stem, a dot and a dot-free suffix has that dot and suffix as its extension |
| NodePath.JoinDotted | src/proxy.ts:110-114 | a file "<stem>.<e>" appended to the root has that name as its base name and "." + e as its extension |
| NodePath.ExtOf | src/proxy.ts:110 | the extension is empty, or a dot followed by no other dot, and it is a suffix of the name |
| NodePath.ExtHasOneDot | src/proxy.ts:110-111 | no path has an extension with a dot after its first character, so such a table key is never looked up |
| NodePath.JoinName | src/proxy.ts:114 | a file name appended to the root comes back as the base name, with the root as its directory |
| Url.ParseAbsolute | src/proxy.ts:52 | a parsed URL has an authority, and its text is the input |
| Url.ParseHref | src/proxy.ts:52 | every well-formed URL parses back from its text |
| Url.BasePathDiscarded | src/proxy.ts:52 | a path that starts with "/" replaces the substituter's own path (section 5.2.2 of RFC 3986), so only the scheme and the authority matter |
| Url.InvalidBaseThrows | dist/proxy.js:44 | a substituter that is not an absolute URL makes `new URL` throw, whatever the path |
| Url.Hostname | src/proxy.ts:72 | the host name carries no user information and no port |
| Url.HostnameOfHost | src/proxy.ts:72 | a bare host is its own host name |
| Url.HostnameOf | src/proxy.ts:72 | the host name of "user@host:port" is the host |
| Url.Resolve | src/proxy.ts:52 | an invalid base gives no URL; a resolved URL has an authority; a path that is not a URL and does not start with "//" keeps the base's scheme and authority |
| Store.MakeDirs | src/proxy.ts:134-135 | recursive `mkdirSync` adds the directory and its ancestors, leaves the files alone, and fails exactly when one of them is a file |
| Store.WriteFile | src/proxy.ts:140-143 | a "w+" write succeeds exactly when the parent is a directory and the path is not; it replaces the file's bytes and touches no other file |
| Store.ReadFile | src/proxy.ts:118 | a read finds nothing exactly when nothing exists, and gives a file's bytes exactly when it is a file |
| Store.Upload | src/proxy.ts:130-146 | mkdir fails exactly when the parent is missing and one of its ancestors is a file; otherwise the directories are the old ones, plus the parent and its ancestors when the parent was missing; a finished upload leaves the files as before with the path mapped to the body |
| Store.UploadSucceeds | src/proxy.ts:132-146 | an upload finishes whenever no directory on the way to the path is a file and the path is not a directory |
| Store.UploadIdempotent | src/proxy.ts:140-143 | writing the same body again changes nothing, because "w+" truncates |
| Http.StripHopHeaders | src/proxy.ts:68-69 | exactly `host` and `referer` are dropped, and every other header keeps its value |
| Http.ContentType | src/proxy.ts:111 | the table's type for a known extension, otherwise "application/octet-stream" |
| Http.DottedFileHeaders | src/proxy.ts:110-115 | a stored "<stem>.<e>" is served with the table's type for "." + e and a `Content-Disposition` naming the file |
| Http.ServeFile | src/proxy.ts:101-123 | 404 with the not-found text exactly when nothing exists at the path; for a file, 200 with the table's headers and the file's bytes |
| Substituters.Parse | src/proxy.ts:35-41 | one entry per space-separated piece, at least one; entry i is the trim of piece i |
| Substituters.TrimAll | src/proxy.ts:41 | each piece is replaced by its trim, in place |
| Substituters.TrimAllAppend | src/proxy.ts:41 | trimming each piece distributes over concatenation |
| Substituters.ParseNixOutput | src/proxy.ts:35-41 | a list printed as nix prints it parses back to the same list, in order and with repeats kept |
| Substituters.EmptyOutput | dist/proxy.js:151-153 | an empty configuration parses to one empty-string substituter |
| Substituters.Scan | src/proxy.ts:50-97 | the walk stops at the first substituter that does not pass, and every one before it passed; it runs to the end exactly when all pass |
| Substituters.ScanStopsAt | src/proxy.ts:50-97 | the walk stops at the first substituter that does not pass, and its probe decides how |
| Substituters.ScanPrefix | src/proxy.ts:50-97 | substituters after the deciding one play no part |
| Substituters.ContactsOfSingles | src/proxy.ts:50-56 | when each probe makes one call, the walk makes one call per substituter, in list order |
| Substituters.WalkStopsAt | src/proxy.ts:50-97 | where the walk stops, and that its calls are those of every substituter up to and including that one |
| Substituters.WalkExhaustedAt | src/proxy.ts:50-97 | a walk in which every substituter passes makes every substituter's calls |
| SourceProxy.Relay | src/proxy.ts:78-90 | 502 "Bad Gateway" exactly on a request error; otherwise the upstream headers and body, and the upstream status, or 200 when it is missing or 0 |
| SourceProxy.Ask | src/proxy.ts:52-56 | one probe: its result and the calls it makes |
| SourceProxy.Server.constructor | src/proxy.ts:35-41 | the list is the parsed startup output and the store is as given |
| SourceProxy.Server.Walk | src/proxy.ts:50-97 | the loop ends where `Scan` says, with the calls `ScanContacts` lists |
| SourceProxy.Server.ResolveRead | src/proxy.ts:47-126 | a GET or HEAD does what `Read` specifies |
| SourceProxy.Server.Save | src/proxy.ts:128-151 | a PUT does what `Put` specifies, and the store stays valid |
| SourceProxy.Server.Handle | src/proxy.ts:43-153 | the handler does what `Respond` specifies, and the store stays valid |
| SourceProxy.WalkStops | src/proxy.ts:50-56 | where the walk stops, and its calls up to there |
| SourceProxy.WalkExhausted | src/proxy.ts:50-97 | a walk in which all pass contacts every substituter |
| SourceProxy.HitOf | src/proxy.ts:52-56 | a probe succeeds only with a status in 200..299, from the URL the path resolves to |
| SourceProxy.HitWhen | src/proxy.ts:52-56 | conversely, a status in 200..299 from the resolved URL is a hit |
| SourceProxy.ThrowsWhen | src/proxy.ts:52-55 | a probe throws exactly when the substituter is not a valid base or the fetch of the resolved URL fails |
| SourceProxy.PassesWhen | src/proxy.ts:52-56 | a probe passes exactly when the resolved URL answers with a status outside 200..299 |
| SourceProxy.ProbesUpTo | src/proxy.ts:50-56 | each substituter up to the deciding one gets exactly one HEAD fetch, in order |
| SourceProxy.FirstOkProbeWins | src/proxy.ts:50-96 | the first ok probe decides: HEAD gets its status with no headers or body; GET is forwarded once to that host and relayed; earlier substituters got one probe each; the store is untouched |
| SourceProxy.ProbeFailureEscapes | src/proxy.ts:52-55 | a substituter that is not a valid base, or a failed fetch, ends the request with nothing written, and no later substituter is contacted |
| SourceProxy.FallbackToStore | src/proxy.ts:99-123 | with no ok probe, every substituter was probed once, call j being the HEAD fetch of the URL the path resolves to against substituter j; 404 "Not Found" exactly when nothing exists; a file is served with 200, its type and its bytes |
| SourceProxy.LaterSubstitutersIgnored | src/proxy.ts:50-97 | lists that agree up to the deciding substituter give the same reply and the same calls |
| SourceProxy.SameWalkSameRead | src/proxy.ts:50-97 | two lists whose walks stop in the same way with the same calls give the same reply |
| SourceProxy.WhenUnanswered | src/proxy.ts:44-152 | no reply exactly when the URL is empty or the method is not GET, HEAD or PUT; then nothing is contacted; only a PUT changes the store |
| SourceProxy.NarXzNeverServed | src/proxy.ts:110-111 | no file is ever served with the ".nar.xz" type |
| SourceProxy.OnlyNarXzKey | src/proxy.ts:15-34 | only the ".nar.xz" key maps to that type |
| SourceProxy.NarXzServedAsOctetStream | src/proxy.ts:110-111 | a "<name>.nar.xz" file is served as "application/octet-stream" |
| SourceProxy.XzNotInTable | src/proxy.ts:15-34 | the table has no ".xz" key |
| SourceProxy.NarinfoServed | src/proxy.ts:99-115 | a stored "<stem>.narinfo" that no substituter has is served with 200, "application/x-nix-narinfo", its file name and its bytes |
| SourceProxy.PutThenGet | src/proxy.ts:128-151 | an answered upload replies 201 "Created"; a later read that no substituter serves returns the uploaded bytes |
| SourceProxy.PutKeepsOtherFiles | src/proxy.ts:130-146 | an upload touches no file but the one at the joined path |
| SourceProxy.PutKeepsOtherRequests | src/proxy.ts:130-146 | an upload leaves the file of every other normalised request path as it was |
| BuiltProxy.Ask | dist/proxy.js:44-55 | one substituter request: its result and the calls it makes |
| BuiltProxy.Server.constructor | dist/proxy.js:35 | the list starts empty |
| BuiltProxy.Server.Walk | dist/proxy.js:43-61 | the loop ends where `Scan` says, with the calls `ScanContacts` lists |
| BuiltProxy.Server.ResolveRead | dist/proxy.js:41-122 | a HEAD or GET does what `Read` specifies |
| BuiltProxy.Server.Save | dist/proxy.js:123-143 | a PUT does what `Put` specifies and keeps the list |
| BuiltProxy.Server.Refresh | dist/proxy.js:144-158 | a POST does what `Post` specifies and keeps the store |
| BuiltProxy.Server.Handle | dist/proxy.js:36-166 | the handler does what `Respond` specifies, list and store included |
| BuiltProxy.WalkStops | dist/proxy.js:43-61 | where the walk stops, and its calls up to there |
| BuiltProxy.WalkExhausted | dist/proxy.js:78-98 | a walk in which all pass asks every substituter |
| BuiltProxy.ReadStops | dist/proxy.js:41-61 | a read whose walk stops at a substituter is answered by it, with the calls up to it |
| BuiltProxy.ReadFallsBack | dist/proxy.js:62-74 | a read in which every substituter passes is answered by the store |
| BuiltProxy.HitOf | dist/proxy.js:54-55 | a hit has a set status that is non-zero and at most 299, with no lower bound, and it is the answer to the request for the resolved URL |
| BuiltProxy.HitWhen | dist/proxy.js:54-55 | conversely, any set status that is not 0 and at most 299 is a hit, passed on as it came, with no lower bound |
| BuiltProxy.InformationalStatusHits | dist/proxy.js:54-55 | a 100 answer counts as a hit |
| BuiltProxy.ThrowsWhen | dist/proxy.js:8-22 | a probe throws exactly when the substituter is not a valid base or the request to the resolved URL fails or times out |
| BuiltProxy.PassesWhen | dist/proxy.js:54-55 | a probe passes exactly when the answer's status is missing, 0 or above 299 |
| BuiltProxy.ResolvedUpTo | dist/proxy.js:44 | every substituter the walk reaches without a throw resolved the path |
| BuiltProxy.ReadHit | dist/proxy.js:89-97 | a read that stops at a hit serves it |
| BuiltProxy.HitRequests | dist/proxy.js:82-88 | one request per substituter up to the hit: the client's method, path and stripped headers, sent to that host on port 443 |
| BuiltProxy.FirstHitWins | dist/proxy.js:78-97 | the first hit answers with its status and headers, and with its body for a GET; earlier substituters got one request each; list and store unchanged |
| BuiltProxy.FailureAnswers500 | dist/proxy.js:161-165 | an invalid substituter URL or a failed or timed-out request gives 500 "internal server error"; no later substituter is asked |
| BuiltProxy.FallbackToStore | dist/proxy.js:62-120 | with no hit, every substituter was asked once, call j being the client's request sent to the URL the path resolves to against substituter j; 404 "not found" exactly when nothing exists; HEAD gets 200 with nothing else; GET gets the file |
| BuiltProxy.LocalUntilRefreshed | dist/proxy.js:35-43 | before the first refresh every read is answered by the store, with no outgoing call |
| BuiltProxy.RefreshReplaces | dist/proxy.js:150-156 | a refresh replaces the whole list by the parsed output and replies 200 with its JSON, which decodes to the list |
| BuiltProxy.RefreshFailureKeepsList | dist/proxy.js:151-165 | a failing refresh command gives 500 and keeps the old list |
| BuiltProxy.OtherPostNotFound | dist/proxy.js:145-149 | a POST to another path is 404 "not found" and changes nothing |
| BuiltProxy.EmptyConfigBreaksReads | dist/proxy.js:151-153 | an empty configuration leaves one empty substituter, after which every read fails with 500 |
| BuiltProxy.WhenUnanswered | dist/proxy.js:36-166 | no reply exactly when the URL is empty or the method is none of the four; only a PUT can escape or change the store; only a POST changes the list |
| BuiltProxy.NarinfoServed | dist/proxy.js:99-115 | a stored "<stem>.narinfo" that no substituter has is served to a GET with 200, "application/x-nix-narinfo", its file name and its bytes |
| BuiltProxy.PutThenGet | dist/proxy.js:123-143 | a finished upload replies 201 "created"; a later GET that no substituter serves returns the uploaded bytes |
| BuiltProxy.CompressedTypesNeverServed | dist/proxy.js:108-109 | no file is served with the ".nar.xz" or ".nar.zst" types |
| BuiltProxy.OnlyCompressedKeys | dist/proxy.js:29-34 | only the ".nar.xz" and ".nar.zst" keys map to "application/x-xz" or "application/zstd" |
| CacheKey.AccumulateHash | src/key.ts:11-18 | the listener's accumulation equals `Hash` of the chunks |
| CacheKey.Key | src/key.ts:4-30 | a non-empty input is the key; every generated key is longer than and starts with "nix-store-" |
| CacheKey.GetKey | src/key.ts:4-30 | `getKey` returns `Key` |
| CacheKey.UserKeyWins | src/key.ts:7-8 | a user key is returned whatever the hash command does |
| CacheKey.DefaultOnlyOnFailure | src/key.ts:25-29 | the key is "nix-store-default" exactly when the hash command throws |
| CacheKey.Hash | src/key.ts:11-18 | the hash has no white space at either end |
| CacheKey.HashAppend | src/key.ts:11-18 | the hash of chunks received in turn is the concatenation of their hashes |
| CacheKey.HashEmpty | src/key.ts:19-24 | the hash is empty exactly when every chunk is white space |
| CacheKey.HashOfLine | src/key.ts:12-18 | a hash printed on one line is that hash |
| CacheKey.KeyDeterminesHash | src/key.ts:19-21 | on one platform, equal generated keys mean equal non-empty hashes |
| CacheKey.HashKey | src/key.ts:19-21 | a non-empty hash gives "nix-store-<platform>-<arch>-<hash>" |
| CacheKey.LineHashKey | src/key.ts:12-21 | a hash printed on one line gives "nix-store-<platform>-<arch>-<hash>" |
| CacheKey.BlankHashKey | src/key.ts:24 | blank output gives "nix-store-<platform>-<arch>" |
| Cleanup.RunCleanup | src/cleanup.ts:5-39 | `main` and its catch end as `Cleanup` specifies |
| Cleanup.Compare | src/cleanup.ts:14-20 | the size and the limit are read with `parseInt` and compared as `GcRequired` says |
| Cleanup.StepOrder | src/cleanup.ts:5-39 | steps are attempted in the planned order; every step but the last attempted succeeded; the run completes exactly when the last attempted step succeeded, and then all planned steps ran; a throw is reported as its kind dictates |
| Cleanup.CompletedRun | src/cleanup.ts:20-32 | without a throw, every planned step runs, the save included, on either branch |
| Cleanup.GcIffExceeds | src/cleanup.ts:20-29 | garbage is collected exactly when optimising and measuring succeeded and the size exceeds the limit |
| Cleanup.DefaultLimit | src/cleanup.ts:18-19 | an empty `max-size` means 5000000000 |
| Cleanup.NaNNeverCollects | src/cleanup.ts:14-20 | a size or limit that `parseInt` cannot read never triggers collection |
| Cleanup.GcStrictlyAbove | src/cleanup.ts:20-29 | for printed numbers, collection happens exactly when the size is strictly above the limit; an equal size does not collect |
| Cleanup.DefaultThreshold | src/cleanup.ts:18-24 | with the default limit, a store collects exactly above 5000000000 bytes |
| Cleanup.ReadSize | src/cleanup.ts:10-14 | the size printed on one line reads back as that number |

## Left out

- Streaming: bodies are whole byte sequences. Back-pressure, a read error after the headers are sent and the text written on it, and a forwarded request's body arriving in parts are not modelled.
- The network and timers: a substituter's behaviour is a function from the outgoing call to its answer. The ten-second timeout and a socket error are the same `NetError`. `fetch` redirects are not followed in the model.
- Node removes the body of a reply to a HEAD request. The model describes what the handler writes.
- Text bodies stay strings, with no UTF-8 encoding.
- Numbers are unbounded integers. `parseInt` past 2^53 loses precision in JavaScript and not here.
- NodePath.Join: appends the request path to the root. For a `Normalised` path this is what `path.join` gives. Other paths ("/a//b", "/a/./b", "/c/../a/b") are normalised by Node onto the same file as another path, and the model keeps them apart. Containment under the root is not claimed.
- Url.Resolve: a base must have the `scheme://authority` form. Dot segments, percent-encoding, IPv6 hosts, lower-casing of the host and the special rules for `http`, `https` and `file` are not modelled.
- Concurrency: requests are handled one at a time. Interleaved requests and racing uploads are not modelled.
- Process behaviour: an `Escaped` outcome does not model what Node does with an unhandled rejection.
- The startup of `src/proxy.ts`: a failing `nix config show substituters` at startup stops the module. The constructor takes the command's output as given.
- Logging (`console.log`, `console.error`, `core.info`) is left out.
- The external commands and inputs are parameters. This covers `nix`, `jq`, `bash`, `core.platform`, `core.getInput` (which trims its value) and `cache.saveCache`.
- Cleanup.RunCleanup: a step's behaviour is a function of the step alone, so the size output cannot depend on what an earlier step did.
- CacheKey.Key: its own contract states only the user-key and prefix rules. The full choice is stated by `UserKeyWins`, `HashKey`, `BlankHashKey`, `DefaultOnlyOnFailure` and `KeyDeterminesHash`.
- `src/util.ts`, `src/index.ts`, `rollup.config.js` and `dist/util.d.ts` are not part of this model.
