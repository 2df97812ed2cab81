# mho core, modelled in Dafny

mho serves an Ember application straight from its sources. A service worker
intercepts the page's requests, builds or transforms the responses in the
browser, and caches them. Each cached response carries tags naming the
manifest entries it depended on. A small Rust server serves the files and the
manifest and pushes change notices as server-sent events. A Node script
pre-builds the npm dependencies.

This project models the core of that system as pure Dafny functions over
immutable data and proves properties of the model:

- **Manifest and dependency tracking** (`Manifest`, `Tracking`,
  `ManifestCaching`). The CRC32 tag of a manifest query. The decision table of
  `DependencyTracker.on`. The `queryManifest` generator. `generateHeader`.
  The JSON text of the `x-manifest-deps` header and its parse (`Json`). The
  write-then-validate cycle of `ManifestCache.through`.
- **Memoisation** (`TtlMemo`, `SharedLoad`, `SharedLoadIntended`). The
  time-to-live memo `cacheFor` and the shared loader `cached`.
- **The fetch pipeline** (`FetchHandling`, `Synthesize`, `MediaTypes`,
  `HtmlRewrite`). Which requests bypass the worker and which invalidate the
  manifest. Synthesized scaffolding files. Media-type classification,
  dispatch to a transform, and the HTML rewrite.
- **Loaders** (`Loaders`, `EmberEntrypoints`). The loader result protocol, the
  four core loaders and the Ember entrypoint switch.
- **The package crawler** (`PackageOrder`). The order in which
  `listPackages` outputs the crawled packages.
- **The dependency pre-builder** (`DepBuild`). The entrypoint bookkeeping of
  `resolve` and the rebuild loop of `run`.
- **Server-sent events** (`ServerSentEvents`). The message builder and
  serializer of the Rust server. They are paired with a model of the
  browser's event-stream parser, following "Interpreting an event stream" in
  the server-sent events section of the WHATWG HTML Living Standard. This
  pairing states the round trip.

Third-party engines are parameters and are never interpreted:
- CRC32 and minimatch (`Manifest.Oracles`);
- the network (`Http.Network`), which returns a response or the error `fetch`
  rejects with;
- the `content-type` package (`MediaTypes.ContentTypeCodec`);
- parse5 (`HtmlRewrite.HtmlCodec`), which the fetch pipeline's HTML branch uses through `HtmlRewrite.TransformHtml`;
- the JavaScript and handlebars transforms (`FetchHandling.Transforms`);
- the node resolver, `pkg-up`, `require` and `path` (`DepBuild.Env`).

Every lemma therefore holds for every behaviour of those engines.

## Model

| member | source | states |
|---|---|---|
| `Text.ReplaceFirst` | worker/src/transform-html.ts:53 | `replace` with a string pattern replaces only the first occurrence, leaves a text without one unchanged, and replaces a leading occurrence at the front |
| `Text.SliceInner` | worker/src/manifest.ts:84 | `slice(1, -1)` keeps every character but the first and the last, and gives the empty string for texts of at most two characters |
| `Text.Split` | worker/src/fetch.ts:36 | `split` gives at least one piece and no piece holds the separator |
| `Text.JoinSplit` | worker/src/fetch.ts:36 | joining the pieces of a split with the separator gives the text back |
| `Text.SplitJoin` | worker/src/fetch.ts:36 | splitting the join of separator-free pieces gives the pieces back |
| `Manifest.MatchingEntries` | worker/src/manifest.ts:182-192 | yields only entries of the files table whose path the query matches, and every such entry |
| `Manifest.MatchingEntriesAppend` | worker/src/manifest.ts:187-191 | matches keep the order of the files table: extending the table at the end extends the matches at the end |
| `Manifest.Paths` | worker/src/manifest.ts:19-20 | the collected paths are the entries' paths, in order |
| `Manifest.FeedIsConcat` | worker/src/manifest.ts:196-202 | feeding path and etag of each entry to a streaming CRC32 equals hashing their concatenation |
| `Manifest.CacheTagFor` | worker/src/manifest.ts:196-203 | the tag of a query is the CRC32 of path, etag, path, etag… over the matching entries in manifest order |
| `Manifest.NoMatchIsEmptyDigest` | worker/src/manifest.ts:67-75 | a query that matches nothing has the digest of nothing, the tag a 404 records |
| `Manifest.NoMatchNoEntries` | worker/src/manifest.ts:182-192 | a query no path matches yields no entries |
| `Manifest.LiteralMatches` | worker/src/manifest.ts:182-192 | for a literal query over distinct paths: a present path is its own only match, an absent one matches nothing |
| `Tracking.QueryLoopIsMatching` | worker/src/manifest.ts:16-26 | the one-pass loop of `queryManifest` computes exactly the matching paths and the hash over the matching entries |
| `Tracking.Next` | worker/src/manifest.ts:16-26 | a suspended generator completes in one `next()`: it appends exactly one tag for its query, changes nothing else in the tracker, and returns the matching paths in manifest order; a completed one returns nothing and changes nothing |
| `Tracking.QueryManifestRecordsCacheTag` | worker/src/manifest.ts:16-26 | the first `next()` records `[query, cacheTagFor(manifest, query)]`, returns the matching paths and reports done; nothing else moves |
| `Tracking.QueryGeneratorYieldsNothing` | worker/src/manifest.ts:16-26 | the generator has no `yield`: every `next()` reports done, and a finished one records nothing |
| `Tracking.LocalPathStripsBase` | worker/src/manifest.ts:43-50 | inside the mount point, replacing the first `baseURL` strips exactly the leading one and leaves a path starting with "/" |
| `Tracking.On` | worker/src/manifest.ts:28-89 | the whole decision table of `on`: uncacheable or immutable leaves the tracker alone; outside the mount point, excluded or without an etag clears `cacheable`; a 404 tags the empty digest; otherwise the tag hashes the local path and the unquoted etag |
| `Tracking.OnInside` | worker/src/manifest.ts:50-89 | inside the mount point: an excluded path clears `cacheable`; a 404 tags the empty digest; no etag clears `cacheable`; otherwise the tag hashes the local path and the unquoted etag |
| `Tracking.OnAppendsAtMostOne` | worker/src/manifest.ts:28-89 | `on` only appends, at most one tag, and none when it leaves the tracker uncacheable |
| `Tracking.OnKeepsTagsValid` | worker/src/manifest.ts:67-88 | when the manifest agrees with the observation, the tag `on` records equals `cacheTagFor` of its path, so valid tags stay valid |
| `Tracking.NotFoundTagIsCacheTag` | worker/src/manifest.ts:67-75 | the 404 tag is `cacheTagFor` of the path whenever no manifest path matches it |
| `Tracking.LiteralObservationAgrees` | worker/src/manifest.ts:67-88 | under the literal-query assumption, a 404 for an absent path and a matching etag for a present one agree with the manifest |
| `Tracking.GenerateHeader` | worker/src/manifest.ts:91-96 | a header exists exactly while cacheable, and it is the JSON array of the tags' `[query, digest]` pairs in recording order |
| `Tracking.TagPairs` | worker/src/manifest.ts:12 | each tag becomes its `[query, digest]` pair, in order |
| `Tracking.PairTags` | worker/src/manifest.ts:143 | each parsed `[query, key]` pair becomes a tag, in order |
| `Tracking.GenerateHeaderRoundTrip` | worker/src/manifest.ts:91-96 | a generated header is never empty, and `JSON.parse` of it gives back exactly the tracker's tags |
| `Json.JsonChar` | worker/src/manifest.ts:95 | `JSON.stringify` writes a character as it is exactly when it is neither `"`, `\` nor a control character, and never writes a control character |
| `Json.JsonChars` | worker/src/manifest.ts:95 | the escaped body of a JSON string holds no control character |
| `Json.JsonPairs` | worker/src/manifest.ts:95 | the array text is bracketed, and is `[]` exactly for no pairs |
| `Json.ReadJsonChars` | worker/src/manifest.ts:95 | round trip: the escaped characters of any string and the closing quote read back as that string, and reading stops right after the quote |
| `Json.PlainJsonString` | worker/src/manifest.ts:95 | a string without `"`, `\` or control characters is written between quotes unchanged |
| `Json.ReadJsonPair` | worker/src/manifest.ts:95 | round trip: a written `[a, b]` reads back as the pair, leaving what follows |
| `Json.ReadJsonPairList` | worker/src/manifest.ts:95 | round trip: a written non-empty pair list reads back as the list |
| `Json.ParseJsonPairs` | worker/src/manifest.ts:143 | round trip: `JSON.parse(JSON.stringify(pairs))` gives the pairs back |
| `Tracking.RunMonotone` | worker/src/manifest.ts:8-12 | over any handler run, `cacheable` is only ever cleared, tags are only appended, and mount point and manifest stay |
| `Tracking.UncacheableStaysUncacheable` | worker/src/manifest.ts:29-33 | once uncacheable always uncacheable; observations then change nothing |
| `Tracking.RunKeepsTagsValid` | worker/src/manifest.ts:16-89 | from a fresh tracker, when the manifest agrees with every observation, every recorded tag validates against that manifest |
| `ManifestCaching.ReadDeps` | worker/src/manifest.ts:141-143 | a missing or empty `x-manifest-deps` header means no tags; otherwise the header is parsed, and text `JSON.parse` rejects is told apart from tags |
| `ManifestCaching.ParseDeps` | worker/src/manifest.ts:143 | the header's tags are exactly the parsed pairs as tags, and it fails exactly when the parse does |
| `ManifestCaching.Tagged` | worker/src/manifest.ts:163-176 | the stored copy has the fresh response's status, status text and body, an empty `url`, the dependency header set to the given text and every other header unchanged |
| `ManifestCaching.Through` | worker/src/manifest.ts:128-179 | the handler runs exactly when the cache is disabled or the entry is neither current nor unparsable; a current copy is returned unchanged; an unparsable header rejects and leaves the store alone; a stale entry is deleted; a copy of the fresh response tagged with the tracker's JSON header is stored exactly when the handler succeeds and the tracker yields a header, and the fresh response is returned; other keys are untouched |
| `ManifestCaching.WriteThenValidate` | worker/src/manifest.ts:139-179 | after an agreeing, cacheable handler run, the first read returns the fresh response and stores a tagged copy whose header reads back as the tracker's tags; that copy validates against the same manifest, so the next enabled read returns the tagged copy without running a handler |
| `ManifestCaching.UncacheableNeverStored` | worker/src/manifest.ts:152-177 | an enabled miss (no current copy and no unparsable header) whose handler is uncacheable or fails leaves no entry for the request |
| `ManifestCaching.DisabledAlwaysRuns` | worker/src/manifest.ts:139-140 | with the cache disabled the handler always runs, and an uncacheable or failing run leaves the store as it was |
| `ManifestCaching.StaleTagEvicts` | worker/src/manifest.ts:141-153 | one tag whose digest differs from the current `cacheTagFor` evicts the entry and runs the handler |
| `TtlMemo.Call` | worker/src/cache-util.ts:7-23 | a fresh stored value is returned; otherwise the outstanding load is shared; otherwise `fn` is invoked once more; the stored value is untouched |
| `TtlMemo.Settle` | worker/src/cache-util.ts:15-21 | success stores the value to expire `ms` later; failure keeps the old entry; both clear the outstanding load |
| `TtlMemo.CallsShareOneLoad` | worker/src/cache-util.ts:11-14 | while no load settles, any number of calls invoke `fn` at most once and every non-hit gets the same load |
| `TtlMemo.ExpiryIsStrict` | worker/src/cache-util.ts:8-9 | a stored value serves calls strictly before its expiry, and the first call at or after expiry loads again |
| `TtlMemo.FailureRetries` | worker/src/cache-util.ts:15-21 | a failed load leaves the memo as before, so the next non-hit starts a new load |
| `SharedLoad.Read` | worker/src/cache-util.ts:39-69 | `read`: stored value, else the outstanding load, else a new load |
| `SharedLoad.Finish` | worker/src/cache-util.ts:54-67 | the settlement goes to the readers of the outstanding load; `loading` clears, the stored value and the invocation count are kept, so the next read starts load number `calls` afresh |
| `SharedLoad.Invalidate` | worker/src/cache-util.ts:70-72 | `invalidate` clears only the stored value |
| `SharedLoad.StoredNeverAssigned` | worker/src/cache-util.ts:37-72 | no sequence of reads, settlements and invalidations ever stores a value |
| `SharedLoad.ReachableReadNeverHits` | worker/src/cache-util.ts:40-42 | every reachable read is pending, and with nothing outstanding it invokes `fn` again |
| `SharedLoad.SecondReadReloads` | worker/src/cache-util.ts:39-69 | as written: a read after a successful load invokes `fn` a second time |
| `SharedLoadIntended.FinishStoring` | worker/src/cache-util.ts:54-67 | corrected: a successful load is stored, a failure keeps what was there, `loading` clears |
| `SharedLoadIntended.ReadAfterLoadHits` | worker/src/cache-util.ts:39-72 | corrected: a read after a successful load returns its value without invoking `fn`, and after `invalidate` the next read loads again |
| `SharedLoadIntended.FailureIsNotStored` | worker/src/cache-util.ts:60-63 | corrected: after a failed load the next read invokes `fn` again |
| `PackageOrder.AddAllFacts` | worker/src/package-info.ts:62-69 | adding names to a `Set` keeps what it had, contains exactly old and new names, stays duplicate-free, and appends in order |
| `PackageOrder.DependencyNamesFacts` | worker/src/package-info.ts:57-71 | `dependencyNames` lists each name once: the dependencies, plus the devDependencies for the top package only, dependencies first |
| `PackageOrder.ChildrenOf` | worker/src/package-info.ts:46-51 | only non-empty resolutions are pushed |
| `PackageOrder.ChildrenAreResolutions` | worker/src/package-info.ts:46-51 | the pushed URLs are exactly the non-empty resolutions of the dependency names |
| `PackageOrder.ListPackages` | worker/src/package-info.ts:33-55 | an empty map gives nothing; the first package is the first inserted one; every output is a known package; the list is the packages of a URL list that names each package once and in which every later package is a resolved dependency of an earlier one |
| `PackageOrder.LoopOutputsKnownOnce` | worker/src/package-info.ts:38-53 | the loop outputs only known packages, each once, and keeps what it had |
| `PackageOrder.OutputStep` | worker/src/package-info.ts:43-51 | outputting the head of the queue and pushing its children keeps every output and every queued URL reached from an earlier output |
| `PackageOrder.LoopOutputsReached` | worker/src/package-info.ts:36-55 | every output but the first was reached as a resolution of an earlier output |
| `PackageOrder.ListPackagesFacts` | worker/src/package-info.ts:33-55 | `listPackages` starts with the first inserted package, outputs only known packages, each once, and every later one was reached as a resolved dependency of an earlier output; an empty map gives nothing |
| `PackageOrder.LoopExtends` | worker/src/package-info.ts:44-45 | the loop only appends to its output |
| `PackageOrder.QueueIsFifo` | worker/src/package-info.ts:39-49 | first in, first out: everything already queued is output, in queue order, before anything pushed later |
| `PackageOrder.BreadthFirst` | worker/src/package-info.ts:33-55 | the order is breadth-first: right after the root come its own resolved dependencies in declaration order |
| `MediaTypes.Declared` | worker/src/media-type.ts:8-13 | a missing or empty content-type is `application/octet-stream` with no parameters; otherwise the header is parsed |
| `MediaTypes.MediaTypeOf` | worker/src/media-type.ts:3-36 | fails exactly when parsing fails; keeps the parameters; `.ts` becomes JavaScript and forwards its formatted type; `.hbs` becomes glimmer handlebars but forwards JavaScript; anything else is passed on with the original headers |
| `MediaTypes.SuffixesExclusive` | worker/src/media-type.ts:18-33 | no URL ends in both `.ts` and `.hbs` |
| `MediaTypes.ForwardedTypeIsJavascript` | worker/src/media-type.ts:18-35 | after a rewrite the browser is told JavaScript; without one the headers are the response's own; other headers never change |
| `Synthesize.ScaffoldPath` | worker/src/synthesize-files.ts:1-22 | `/deps/` files and the worker's own sources are not synthesized; `/` is `/scaffolding/index.html`; every other path is `/scaffolding` + path |
| `Synthesize.ListedPathsAreDefault` | worker/src/synthesize-files.ts:11-20 | the explicitly listed assets route exactly as the default case, and `/` as `/index.html` |
| `Synthesize.ScaffoldPathShape` | worker/src/synthesize-files.ts:1-26 | a path is synthesized exactly when it is neither a `/deps/` file nor a worker source, and then from under `/scaffolding/` |
| `Synthesize.HandleSynthesizedFile` | worker/src/synthesize-files.ts:1-26 | nothing for a path that is not synthesized; otherwise the network's answer for the scaffolding path, or its error |
| `Loaders.DebugParams` | worker/src/core-loaders.ts:4-17 | `?network` marks the request volatile and claims the network response untransformed; otherwise `?untranspiled` settles with no transform; otherwise no claim |
| `Loaders.WorkerSource` | worker/src/core-loaders.ts:19-29 | claims exactly the worker's two sources, marking them volatile |
| `Loaders.FetchLoader` | worker/src/core-loaders.ts:31-45 | every fetched response, a 404 included, is observed by `on`; a 404 is not claimed; anything else is claimed |
| `Loaders.IndexHtmlFallback` | worker/src/core-loaders.ts:47-55 | rewrites to `/index.html?nofallback` exactly when HTML is accepted and `nofallback` is absent |
| `Loaders.FallbackFiresOnce` | worker/src/core-loaders.ts:47-55 | the rewritten request carries `nofallback`, so the fallback cannot fire twice |
| `Loaders.FetchLoaderRecordsAtMostOneTag` | worker/src/core-loaders.ts:31-45 | the fetch loader appends at most one tag and changes nothing on an uncacheable tracker |
| `EmberEntrypoints.Scaffold` | worker/src/ember.ts:33-40 | fetches `/scaffolding` + name and observes the response; a failed fetch rejects with the network's error and leaves the tracker alone |
| `EmberEntrypoints.EntryResponse` | worker/src/ember.ts:128-144 | the entry module is a 200 response with the rendered source labelled `application/javascript` |
| `EmberEntrypoints.Entrypoints` | worker/src/ember.ts:7-31 | the six assets are scaffolded; `/` and `/index.html` rewrite to `/app/index.html`; `/_entry_/index.js` is the entry module; `/_addon_meta_test` answers the addon list and is marked volatile only when the crawl succeeded (a failed crawl rejects before `isVolatile`); nothing else is claimed |
| `EmberEntrypoints.RewriteTargetIsNotACase` | worker/src/ember.ts:20-22 | once restarted on `/app/index.html` the loader no longer claims, so the rewrite does not loop |
| `EmberEntrypoints.OnlyAssetsAreObserved` | worker/src/ember.ts:12-31 | apart from the addon list, only the scaffolded assets touch the tracker |
| `FetchHandling.ServerError` | worker/src/fetch.ts:81-86 | the caught-error response has status 500 |
| `FetchHandling.Dispatch` | worker/src/fetch.ts:57-78 | HTML goes through `HtmlRewrite.TransformHtml` with the environment's HTML codec, JavaScript and handlebars through their transform, each with the forwarded headers; any other type is returned as it is; a parse error is thrown |
| `FetchHandling.HandlerBody` | worker/src/fetch.ts:46-79 | a synthesized file is returned raw under `untranspiled` and dispatched otherwise; without one the network response is observed by `on` and then dispatched; errors are thrown |
| `FetchHandling.BypassFetch` | worker/src/fetch.ts:21-29 | a bypassed request always settles with a response: the network's, or a 500 on a network error |
| `FetchHandling.HandleFetch` | worker/src/fetch.ts:17-87 | as written: bypassed requests go to the network; otherwise `accept` decides the invalidation; the result is `through`'s, and a manifest or handler error rejects the returned promise |
| `FetchHandling.HandleFetchAwaited` | worker/src/fetch.ts:43-86 | corrected: identical to `HandleFetch` except that a rejection becomes the 500 response carrying the error |
| `FetchHandling.BypassLeavesCacheAlone` | worker/src/fetch.ts:21-29 | a bypassed request neither touches the cache nor invalidates the manifest, and always replies |
| `FetchHandling.NocacheSkipsCache` | worker/src/fetch.ts:40-44 | with `nocache` the handler runs whatever is stored and its result settles the promise; a failed handler leaves the store alone |
| `FetchHandling.HitServedFromStore` | worker/src/fetch.ts:40-44 | without `nocache`, a current stored entry answers the request, no handler runs and the store is unchanged |
| `FetchHandling.AcceptPiecesAreUntrimmed` | worker/src/fetch.ts:35-39 | `*/*, text/html` does not invalidate the manifest, `text/html,*/*` does |
| `FetchHandling.HandlerErrorEscapes` | worker/src/fetch.ts:43-86 | as written: on a miss, a handler error rejects the promise instead of becoming a 500 |
| `FetchHandling.OfflineDepsRequestRejects` | worker/src/fetch.ts:43-86 | as written: a worker that lost the network after loading its manifest, asked for `/deps/a.js`, rejects with the network error |
| `FetchHandling.AwaitedAlwaysReplies` | worker/src/fetch.ts:17-87 | corrected: every request settles with a response, and a thrown error gives status 500 |
| `HtmlRewrite.FindAttr` | worker/src/transform-html.ts:51 | the first attribute with the name, or none when no attribute has it |
| `HtmlRewrite.RewriteRootUrl` | worker/src/transform-html.ts:53 | only the first attribute with the name changes, by replacing its first `{{rootURL}}` with `/` |
| `HtmlRewrite.DirectiveEnd` | worker/src/transform-html.ts:86-91 | a `{{content-for "…"}}` directive found at a position ends within the text |
| `HtmlRewrite.StripContentFor` | worker/src/transform-html.ts:85-92 | removing the directives never lengthens the text |
| `HtmlRewrite.Visit` | worker/src/transform-html.ts:31-99 | a script whose rewritten src is `/assets/ember-app.js` is replaced by the entry module script; any other script has its `src`, and a link has its `href` only when it carries `rel=stylesheet`, passed through `RewriteRootUrl`, and every other element keeps its attributes; text loses its directives; a head gains the environment meta; children are visited in order |
| `HtmlRewrite.TransformHtml` | worker/src/transform-html.ts:3-20 | a non-200 response passes through; otherwise the rewritten document is served with the forwarded headers, status and status text |
| `HtmlRewrite.MetaIsFixed` | worker/src/transform-html.ts:32-48 | visiting the appended meta element changes nothing |
| `HtmlRewrite.KeptScriptIsNotBundle` | worker/src/transform-html.ts:50-73 | a script that is kept does not load the app bundle |
| `HtmlRewrite.NoBundleSurvives` | worker/src/transform-html.ts:50-98 | after the rewrite no script anywhere in the tree loads the app bundle |
| `HtmlRewrite.DirectiveRemoved` | worker/src/transform-html.ts:86-91 | a directive at the front of a text is removed whole |
| `HtmlRewrite.PlainTextKept` | worker/src/transform-html.ts:85-92 | text without `{` passes through unchanged |
| `HtmlRewrite.PlainPrefixKept` | worker/src/transform-html.ts:85-92 | text before any `{` is kept as it is |
| `HtmlRewrite.DirectiveReplacedByNothing` | worker/src/transform-html.ts:23-25 | a directive is replaced by the empty string and the text before it is kept |
| `ServerSentEvents.DataMessage` | server/src/sse.rs:25-32 | `Message::data` sets data only |
| `ServerSentEvents.Lines` | server/src/sse.rs:56 | `str::lines` pieces contain no `\n`, and only the empty text has no pieces |
| `ServerSentEvents.Serialize` | server/src/sse.rs:43-64 | the serialization is the event, id and data lines and a blank line, each ended by a newline |
| `ServerSentEvents.SerializeShape` | server/src/sse.rs:43-64 | an empty message is a lone newline, and every serialization ends with the message terminator |
| `ServerSentEvents.SetEvent` | server/src/sse.rs:73-80 | fails exactly when the event holds `\r` or `\n`, otherwise sets it |
| `ServerSentEvents.SetId` | server/src/sse.rs:81-88 | fails exactly when the id holds `\r` or `\n`, otherwise sets it |
| `ServerSentEvents.SetData` | server/src/sse.rs:89-93 | sets data to any text |
| `ServerSentEvents.SetRetry` | server/src/sse.rs:94-97 | sets retry |
| `ServerSentEvents.BuiltMessagesAreHeaderSafe` | server/src/sse.rs:66-98 | every message a builder chain produces without panicking has break-free event and id |
| `ServerSentEvents.FirstBreak` | server/src/sse.rs:55-61 | the reader's first line break: `\r\n`, `\n` or a bare `\r`, with nothing before it a break |
| `ServerSentEvents.StreamLinesOfEmit` | server/src/sse.rs:55-61 | break-free lines ended by newlines are read back as they are |
| `ServerSentEvents.ReadFieldLines` | server/src/sse.rs:43-64 | from break-free field lines, a fresh reader dispatches exactly the expected event, and only when there is a data line |
| `ServerSentEvents.SerializeRoundTrip` | server/src/sse.rs:43-64 | a message with line-safe event, id and data pieces is read back with its type, id and data pieces joined by newlines |
| `ServerSentEvents.BareCarriageReturnWritten` | server/src/sse.rs:55-61 | as written: `a\rb` is one `str::lines` piece, written as one `data:` line |
| `ServerSentEvents.BareCarriageReturnRead` | server/src/sse.rs:55-61 | as written: the reader splits that line at the `\r` |
| `ServerSentEvents.BareCarriageReturnTruncatesData` | server/src/sse.rs:55-61 | as written: the data `a\rb` arrives as `a` |
| `ServerSentEvents.BreakLines` | server/src/sse.rs:56 | corrected splitting: pieces contain no `\r` or `\n` |
| `ServerSentEvents.IntendedRoundTrip` | server/src/sse.rs:43-64 | corrected: every message with line-safe event and id is read back whole, its line breaks normalised to `\n` |
| `ServerSentEvents.SplittingsAgreeWithoutCarriageReturn` | server/src/sse.rs:55-61 | corrected: for data without `\r` the corrected splitting equals `str::lines` |
| `DepBuild.Externals` | deps/build.ts:9-18 | the externals are every RFC 176 module plus `@glimmer/env` and `ember` |
| `DepBuild.AddOnce` | deps/build.ts:101 | adding to the `Set` keeps a waiting package in its place and appends a new one |
| `DepBuild.EnsureName` | deps/build.ts:166-172 | throws exactly when the package has no name or an empty one, and returns the name otherwise |
| `DepBuild.LookupPackage` | deps/build.ts:74-84 | a known package is returned as it is; a new one is recorded with no entrypoints, its manifest, the non-empty `name` of its package.json as `ensureName` returns it, and its directory; a failing `require` or `ensureName` records nothing |
| `DepBuild.Record` | deps/build.ts:86-106 | a target outside the package's name throws and records nothing more; a known exterior subpath must map to the same `./`-relative interior path, or the call throws; a new one is recorded as that interior path and queues the package; a success records the mapping and answers `{id: target, isExternal: true}` |
| `DepBuild.Resolve` | deps/build.ts:38-107 | NUL, relative and absolute targets are left alone; externals are external; an unresolved target throws without changing anything; every resolution is `{id: target, isExternal: true}` |
| `DepBuild.ResolveNeedsPackage` | deps/build.ts:69-84 | a resolved file with no package.json above it, or whose package.json cannot be read or has no name, throws and records nothing |
| `DepBuild.ResolveRecordsEntrypoint` | deps/build.ts:86-102 | once the package is found, a target outside its name throws; on success the exterior subpath `'.' + remainder` maps to `'./' + relative(dir, id)`; a new subpath queues the package; a throw keeps only the package just recorded |
| `DepBuild.ResolveGrows` | deps/build.ts:74-102 | `resolve` never loses a package, a name or an entrypoint, keeps the build queue's order and adds at most one package to its end |
| `DepBuild.NewEntrypointQueuesBuild` | deps/build.ts:98-102 | a newly recorded entrypoint queues its package for a build |
| `DepBuild.ResolveIdempotent` | deps/build.ts:91-97 | resolving the same target again gives the same answer and changes nothing |
| `DepBuild.ConflictingEntrypointThrows` | deps/build.ts:91-97 | a known exterior subpath resolving to a different interior one throws and changes nothing |
| `DepBuild.ResolveAllGrows` | deps/build.ts:116 | a build's resolve calls, failing or not, keep the crawler valid, never lose a package or an entrypoint, and only append to the build queue |
| `DepBuild.Run` | deps/build.ts:109-118 | `run` ends only with an empty queue, and does nothing on an empty one |
| `DepBuild.RunGrows` | deps/build.ts:109-118 | `run` never loses a package or an entrypoint and keeps the queue duplicate-free |
| `DepBuild.RunRemovesHead` | deps/build.ts:111-116 | one iteration removes exactly the first queued package: the queue the build leaves is the rest of the old queue followed only by what the build queued, so the built package is not among the rest, and a build that queues nothing leaves exactly the rest; a throw ends the run, otherwise it continues from that queue |

## Left out

- CRC32 and minimatch are uninterpreted. Nothing assumes CRC32 is injective. Results that need a glob to match only itself take that as an explicit `LiteralQuery` requirement.
- The message of the `SyntaxError` that `JSON.parse` throws is the engine's; the model uses the fixed text `ManifestCaching.ParseError`.
- `Json.ParsePairs` reads only arrays of `[string, string]` pairs without whitespace, the shape `generateHeader` writes. Any other header text, including other valid JSON, counts as text `JSON.parse` throws on; the source would parse it and `deps.every` would throw or compare.
- Cache Storage, `Response.clone`, bodies as streams and `console.log` are not modelled. The cache is a map keyed by request URL, and a body is its text.
- `loadManifest` (worker/src/manifest.ts:114-122) fetches `/manifest`. Its result, the manifest or the load error, is an input of `FetchHandling.HandleFetch`. The `cached` loader that shares it is modelled separately, in `SharedLoad`.
- `DependencyTracker.isVolatile`, `onAndRequestCached` and `onAndWorkCached` are not defined in the files modelled here. An `isVolatile` call is recorded as a flag on the loader step, and the tracker is left as it is.
- `emberAddons` (worker/src/ember.ts:246-259) is not modelled. Its crawl and its result are inputs of `EmberEntrypoints.Entrypoints`. `Crawler.visit` (worker/src/package-info.ts:73-108) is not modelled either: `listPackages` is modelled over the crawled map as it stands.
- The entry-module template, the AMD module list and the `compile` step of worker/src/ember.ts are not modelled. The rendered source is an input.
- `accepts` (imported from worker/src/media-type.ts by core-loaders.ts) is not modelled. Whether a request accepts HTML is the boolean `acceptsHtml` input of `Loaders.IndexHtmlFallback`.
- The `content-type` package, parse5, and the JavaScript and handlebars transforms are not modelled. They are parameters.
- The transform-html model treats a document as a tree of elements, text nodes and leaves. Namespaces, `tagName` and `parentNode` links are not modelled.
- `Date.now()` is an explicit time argument. Promises are not modelled: concurrent callers are modelled as interleaved steps.
- The Node script's `main`, `build` (rollup, commonjs, writing `dist/`) and the process exit are not modelled. The resolve calls that rollup makes while building a package are an input, `DepBuild.Env.buildCalls`.
- `DepBuild.Run` takes a bound on the number of builds. `run` need not terminate when builds keep discovering entrypoints, and a run that exhausts the bound ends as `Unfinished`.
- The event-stream reader handles one stream from a fresh reader. It ignores `retry`, comments and the byte-order mark. The server's `Responder` and the stream plumbing in server/src/sse.rs (lines 99-189) are not modelled.
- `ServerSentEvents.Serialize` writes no `retry` field, because the source does not write one either.
- The watcher, the events broadcaster, the liveness check and the server's cache headers are context, not core, and are not modelled.
- The comment above `listPackages` (worker/src/package-info.ts:30-32) calls the traversal depth-first. The code is a FIFO queue, so the model follows the code and proves `PackageOrder.BreadthFirst`.

## Findings

| source | as written | input that shows it | evidently intended | confidence | as-written member | corrected member |
|---|---|---|---|---|---|---|
| worker/src/cache-util.ts:37-67 | `cached` never assigns its stored value, so every read after a load invokes `fn` again, and `invalidate` has nothing to clear | read, let the load succeed, read again: `fn` has run twice | a successful load is stored until `invalidate` | not executed | `SharedLoad.SecondReadReloads` | `SharedLoadIntended.ReadAfterLoadHits` |
| worker/src/fetch.ts:43-86 | `through` is returned without `await` inside the `try`, so a manifest load error or a handler error rejects the promise and bypasses the 500 handler | a worker that lost the network after loading its manifest, asked for `/deps/a.js`, rejects with `TypeError: Failed to fetch` | every error becomes the 500 response | not executed | `FetchHandling.OfflineDepsRequestRejects` | `FetchHandling.AwaitedAlwaysReplies` |
| server/src/sse.rs:55-61 | data is split with `str::lines`, which leaves a bare `\r` inside a line. The event-stream reader ends the line at that `\r`, so the rest of the line is lost | `Message::data("a\rb")` is read as the data `a` | data is split at every line break the reader recognises | not executed | `ServerSentEvents.BareCarriageReturnTruncatesData` | `ServerSentEvents.IntendedRoundTrip` |
