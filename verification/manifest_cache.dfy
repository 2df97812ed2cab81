/** `ManifestCache.through` of worker/src/manifest.ts: the response cache that
    revalidates stored tags against the current manifest on every read. */
module ManifestCaching {
  import opened Wrappers
  import opened Http
  import opened Manifest
  import opened Tracking
  import Json

  /** The `manifest` Cache Storage bucket, keyed by request URL. */
  type Store = map<Url, Response>

  /** The header a stored copy carries its tags in. */
  const DepsHeader := "x-manifest-deps"

  /** What `JSON.parse` throws on a header it cannot read. */
  const ParseError := "SyntaxError: x-manifest-deps is not valid JSON"

  /** `JSON.parse(header)` of a dependency header, read as tags. */
  function ParseDeps(header: string): (r: Option<seq<Tag>>)
    ensures r.Some? ==> Json.ParsePairs(header).Some? && r.value == PairTags(Json.ParsePairs(header).value)
    ensures r.None? ==> Json.ParsePairs(header).None?
  {
    match Json.ParsePairs(header)
    case Some(pairs) => Some(PairTags(pairs))
    case None => None
  }

  /** What a stored copy's header says: nothing (the header is missing or
      empty, both falsy), text `JSON.parse` rejects, or tags. */
  datatype StoredDeps = NoDeps | Unparsable | Deps(tags: seq<Tag>)

  function ReadDeps(cached: Response): (d: StoredDeps)
    ensures d.NoDeps? <==> Header(cached.headers, DepsHeader) in {None, Some("")}
    ensures d.Unparsable? <==> Header(cached.headers, DepsHeader) !in {None, Some("")}
                               && ParseDeps(cached.headers[DepsHeader]).None?
    ensures d.Deps? ==> ParseDeps(cached.headers[DepsHeader]) == Some(d.tags)
  {
    match Header(cached.headers, DepsHeader)
    case None => NoDeps
    case Some(header) =>
      if header == "" then NoDeps
      else match ParseDeps(header)
        case None => Unparsable
        case Some(tags) => Deps(tags)
  }

  /** The copy `through` stores: `new Response(cloned.body, {headers, status,
      statusText})` where `headers` are the fresh response's with the
      dependency header set. A constructed response has an empty `url`. */
  function Tagged(response: Response, header: string): (r: Response)
    ensures r.url == "" && r.status == response.status && r.statusText == response.statusText && r.body == response.body
    ensures Header(r.headers, DepsHeader) == Some(header)
    ensures forall k :: k != DepsHeader ==> Header(r.headers, k) == Header(response.headers, k)
  {
    Response("", response.status, response.statusText, response.headers[DepsHeader := header], response.body)
  }

  /** What a handler does with the tracker it is given: the calls it makes on
      it, in order, and the response it finally returns or the error it
      throws. */
  datatype HandlerRun = HandlerRun(response: Result<Response, string>, ops: seq<TrackerOp>)

  /** The response `through` returns (or the error it rejects with), the
      store afterwards, and whether the handler ran. */
  datatype Outcome = Outcome(response: Result<Response, string>, store: Store, ranHandler: bool)

  /** The stored copy for `key` is still current: its header reads as tags
      and every `[query, digest]` in it equals `cacheTagFor(manifest, query)`. */
  predicate IsHit(o: Oracles, store: Store, m: Manifest, key: Url) {
    key in store && ReadDeps(store[key]).Deps? && TagsValid(o, m, ReadDeps(store[key]).tags)
  }

  /** The stored copy for `key` has a header `JSON.parse` throws on. */
  predicate IsUnparsable(store: Store, key: Url) {
    key in store && ReadDeps(store[key]).Unparsable?
  }

  /** The tracker as the handler leaves it. */
  function HandlerTracker(o: Oracles, baseURL: string, m: Manifest, handler: Tracker -> HandlerRun): Tracker {
    Run(o, NewTracker(baseURL, m), handler(NewTracker(baseURL, m)).ops)
  }

  /** `through(request, cacheEnabled, handler)` against the manifest snapshot
      `m`. With the cache enabled, a current copy is returned as it is, a
      header `JSON.parse` throws on rejects, and any other stored copy is
      deleted before the handler runs; with it disabled the stored copy is
      neither read nor deleted. After the handler, a copy of the fresh
      response carrying the header is stored exactly when the tracker still
      produces one; the fresh response itself is returned. */
  function Through(o: Oracles, baseURL: string, store: Store, m: Manifest, request: Request,
                   cacheEnabled: bool, handler: Tracker -> HandlerRun): (r: Outcome)
    ensures !r.ranHandler <==> cacheEnabled && (IsHit(o, store, m, request.url) || IsUnparsable(store, request.url))
    ensures cacheEnabled && IsHit(o, store, m, request.url) ==>
              r.response == Success(store[request.url]) && r.store == store
    ensures cacheEnabled && IsUnparsable(store, request.url) ==>
              r.response == Failure(ParseError) && r.store == store
    ensures r.ranHandler ==> r.response == handler(NewTracker(baseURL, m)).response
    ensures r.ranHandler && r.response.Success? && HandlerTracker(o, baseURL, m, handler).cacheable ==>
              r.store == (if cacheEnabled then store - {request.url} else store)[request.url :=
                           Tagged(r.response.value, DepsJson(HandlerTracker(o, baseURL, m, handler).tags))]
    ensures r.ranHandler && (r.response.Failure? || !HandlerTracker(o, baseURL, m, handler).cacheable) ==>
              r.store == if cacheEnabled then store - {request.url} else store
    ensures forall k :: k != request.url ==> (k in r.store <==> k in store)
    ensures forall k :: k != request.url && k in store ==> r.store[k] == store[k]
  {
    var key := request.url;
    if cacheEnabled && IsHit(o, store, m, key) then
      Outcome(Success(store[key]), store, false)
    else if cacheEnabled && IsUnparsable(store, key) then
      Outcome(Failure(ParseError), store, false)
    else
      var evicted := if cacheEnabled && key in store then store - {key} else store;
      var start := NewTracker(baseURL, m);
      var run := handler(start);
      var t := Run(o, start, run.ops);
      match run.response
      case Failure(_) => Outcome(run.response, evicted, true)
      case Success(response) =>
        match GenerateHeader(t)
        case Some(header) => Outcome(run.response, evicted[key := Tagged(response, header)], true)
        case None => Outcome(run.response, evicted, true)
  }

  /** Write-then-validate: when the handler succeeds, the manifest agrees with
      everything it observed and its tracker stays cacheable, the copy stored
      carries the tracker's tags and validates against the same manifest, so
      the next enabled read is a hit that returns that copy without running
      any handler. */
  lemma WriteThenValidate(o: Oracles, baseURL: string, store: Store, m: Manifest, request: Request,
                          cacheEnabled: bool, handler: Tracker -> HandlerRun, next: Tracker -> HandlerRun)
    requires !(cacheEnabled && (IsHit(o, store, m, request.url) || IsUnparsable(store, request.url)))
    requires AllObservationsAgree(o, NewTracker(baseURL, m), handler(NewTracker(baseURL, m)).ops)
    requires HandlerTracker(o, baseURL, m, handler).cacheable
    requires handler(NewTracker(baseURL, m)).response.Success?
    ensures var first := Through(o, baseURL, store, m, request, cacheEnabled, handler);
      && first.response == handler(NewTracker(baseURL, m)).response
      && request.url in first.store
      && ReadDeps(first.store[request.url]) == Deps(HandlerTracker(o, baseURL, m, handler).tags)
      && IsHit(o, first.store, m, request.url)
      && Through(o, baseURL, first.store, m, request, true, next)
         == Outcome(Success(Tagged(first.response.value, DepsJson(HandlerTracker(o, baseURL, m, handler).tags))),
                    first.store, false)
  {
    var start := NewTracker(baseURL, m);
    var t := HandlerTracker(o, baseURL, m, handler);
    RunKeepsTagsValid(o, start, handler(start).ops);
    RunMonotone(o, start, handler(start).ops);
    GenerateHeaderRoundTrip(t);
  }

  /** On an enabled read that is not a hit, an uncacheable or failing handler
      leaves no entry behind for its request: the stale one is gone and none
      replaces it. */
  lemma UncacheableNeverStored(o: Oracles, baseURL: string, store: Store, m: Manifest, request: Request,
                               handler: Tracker -> HandlerRun)
    requires !IsHit(o, store, m, request.url) && !IsUnparsable(store, request.url)
    requires !HandlerTracker(o, baseURL, m, handler).cacheable || handler(NewTracker(baseURL, m)).response.Failure?
    ensures request.url !in Through(o, baseURL, store, m, request, true, handler).store
  {
  }

  /** Disabled-cache bypass: even a current stored entry is not returned and
      the handler runs, and the stored entry survives an uncacheable handler. */
  lemma DisabledAlwaysRuns(o: Oracles, baseURL: string, store: Store, m: Manifest, request: Request,
                           handler: Tracker -> HandlerRun)
    ensures Through(o, baseURL, store, m, request, false, handler).ranHandler
    ensures !HandlerTracker(o, baseURL, m, handler).cacheable || handler(NewTracker(baseURL, m)).response.Failure? ==>
              Through(o, baseURL, store, m, request, false, handler).store == store
  {
  }

  /** Staleness: a stored tag whose digest differs from the current
      `cacheTagFor` of its query (a changed etag, or a path added to or
      removed from a glob's matches) evicts the entry and runs the handler. */
  lemma StaleTagEvicts(o: Oracles, baseURL: string, store: Store, m: Manifest, request: Request,
                       handler: Tracker -> HandlerRun, k: nat)
    requires request.url in store && ReadDeps(store[request.url]).Deps?
    requires k < |ReadDeps(store[request.url]).tags|
    requires ReadDeps(store[request.url]).tags[k].digest != CacheTagFor(o, m, ReadDeps(store[request.url]).tags[k].query)
    ensures Through(o, baseURL, store, m, request, true, handler).ranHandler
    ensures !HandlerTracker(o, baseURL, m, handler).cacheable ==>
              request.url !in Through(o, baseURL, store, m, request, true, handler).store
  {
  }
}
