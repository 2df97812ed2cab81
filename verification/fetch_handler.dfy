/** `FetchHandler.handleFetch` of worker/src/fetch.ts: which requests go
    straight to the network, when the manifest is invalidated, and how a
    response is dispatched to a transform inside the manifest cache. */
module FetchHandling {
  import opened Wrappers
  import opened Text
  import opened Http
  import opened Manifest
  import opened Tracking
  import opened ManifestCaching
  import opened MediaTypes
  import opened Synthesize
  import opened HtmlRewrite

  /** A transform's `run(pathname, response, forwardHeaders)`: the rewritten
      response, or the error it throws. */
  type Transform = (string, Response, Headers) -> Result<Response, string>

  /** The JavaScript and handlebars transforms; HTML goes through
      `HtmlRewrite.TransformHtml` with the environment's codec. */
  datatype Transforms = Transforms(js: Transform, hbs: Transform)

  /** Everything `handleFetch` consults besides the request: hashing and glob
      matching, the content-type codec, the network, the HTML parser and
      serializer, the transforms and the manifest `getManifest` yields for
      this request (or its load error). */
  datatype Env = Env(o: Oracles, codec: ContentTypeCodec, net: Network, html: HtmlCodec, transforms: Transforms,
                     manifest: Result<Manifest, string>)

  /** How the promise `handleFetch` returns settles. */
  datatype Settlement = Replied(response: Response) | Rejected(error: string)

  /** The settlement, the cache afterwards and whether the manifest was
      invalidated. */
  datatype FetchResult = FetchResult(outcome: Settlement, store: Store, invalidated: bool)

  /** The request is passed to the network untouched: the worker is shutting
      down, the request is cross-origin, it names the worker's own code, or
      it carries `raw`. */
  predicate Bypass(origin: string, url: Url, alive: bool) {
    !alive || url.origin != origin || url.pathname in ["/client.js", "/worker.js"] || HasParam(url, "raw")
  }

  /** A request for an HTML page: one of the comma-separated pieces of its
      `accept` header is exactly `text/html`, without trimming. */
  predicate InvalidatesManifest(request: Request) {
    match Header(request.headers, "accept")
    case Some(accept) => "text/html" in Split(accept, ',')
    case None => false
  }

  /** The cache is consulted unless the request carries `nocache`. */
  predicate CacheEnabled(url: Url) {
    !HasParam(url, "nocache")
  }

  /** The caught-error response. */
  function ServerError(error: string): (r: Response)
    ensures r.status == 500
  {
    NewResponse("unexpected exception in service worker " + error, 500, map[])
  }

  /** The `switch (media.type)` on a response the handler holds, after
      `ops` have been applied to its tracker. */
  function Dispatch(env: Env, pathname: string, response: Response, ops: seq<TrackerOp>): (run: HandlerRun)
    ensures run.ops == ops
    ensures MediaTypeOf(env.codec, response).Failure? ==>
              run.response == Failure(MediaTypeOf(env.codec, response).error)
    ensures MediaTypeOf(env.codec, response).Success? ==>
              var c := MediaTypeOf(env.codec, response).value;
              && (c.media.mime == Html ==> run.response == TransformHtml(env.html, pathname, response, c.forwardHeaders))
              && (c.media.mime == Javascript ==> run.response == env.transforms.js(pathname, response, c.forwardHeaders))
              && (c.media.mime == GlimmerHbs ==> run.response == env.transforms.hbs(pathname, response, c.forwardHeaders))
              && (c.media.mime !in {Html, Javascript, GlimmerHbs} ==> run.response == Success(response))
  {
    match MediaTypeOf(env.codec, response)
    case Failure(e) => HandlerRun(Failure(e), ops)
    case Success(c) =>
      var result :=
        if c.media.mime == Html then TransformHtml(env.html, pathname, response, c.forwardHeaders)
        else if c.media.mime == Javascript then env.transforms.js(pathname, response, c.forwardHeaders)
        else if c.media.mime == GlimmerHbs then env.transforms.hbs(pathname, response, c.forwardHeaders)
        else Success(response);
      HandlerRun(result, ops)
  }

  /** The handler `handleFetch` passes to `through`: a synthesized file is
      returned raw under `untranspiled` and dispatched otherwise; without
      one, the network response is observed by the tracker first and then
      dispatched. */
  function HandlerBody(env: Env, origin: string, request: Request): (run: HandlerRun)
    ensures (HandleSynthesizedFile(origin, request.url.pathname, env.net).Success?
             && HandleSynthesizedFile(origin, request.url.pathname, env.net).value.Some?) ==>
              var synthesized := HandleSynthesizedFile(origin, request.url.pathname, env.net).value.value;
              run == if HasParam(request.url, "untranspiled") then HandlerRun(Success(synthesized), [])
                     else Dispatch(env, request.url.pathname, synthesized, [])
    ensures (HandleSynthesizedFile(origin, request.url.pathname, env.net) == Success(None)
             && env.net(request).Success?) ==>
              run == Dispatch(env, request.url.pathname, env.net(request).value, [Observe(env.net(request).value)])
    ensures (HandleSynthesizedFile(origin, request.url.pathname, env.net).Failure?
             || (HandleSynthesizedFile(origin, request.url.pathname, env.net) == Success(None)
                 && env.net(request).Failure?)) ==>
              run.response.Failure? && run.ops == []
  {
    match HandleSynthesizedFile(origin, request.url.pathname, env.net)
    case Failure(e) => HandlerRun(Failure(e), [])
    case Success(Some(synthesized)) =>
      if HasParam(request.url, "untranspiled") then HandlerRun(Success(synthesized), [])
      else Dispatch(env, request.url.pathname, synthesized, [])
    case Success(None) =>
      match env.net(request)
      case Failure(e) => HandlerRun(Failure(e), [])
      case Success(response) => Dispatch(env, request.url.pathname, response, [Observe(response)])
  }

  /** The handler as a function of the tracker `through` creates. */
  function Handler(env: Env, origin: string, request: Request): Tracker -> HandlerRun {
    _ => HandlerBody(env, origin, request)
  }

  /** The bypass branch: `return await fetch(request)` inside the `try`, so a
      network failure is caught and becomes a 500. */
  function BypassFetch(env: Env, request: Request): (s: Settlement)
    ensures s.Replied?
  {
    match env.net(request)
    case Success(response) => Replied(response)
    case Failure(e) => Replied(ServerError(e))
  }

  /** `handleFetch(event, alive)` as written. `through` is returned without
      `await`, so its rejection (a manifest load error or an error the
      handler throws) escapes the `try` and rejects the returned promise
      instead of becoming a 500. */
  function HandleFetch(env: Env, origin: string, store: Store, request: Request, alive: bool): (r: FetchResult)
    ensures Bypass(origin, request.url, alive) ==>
              r == FetchResult(BypassFetch(env, request), store, false)
    ensures !Bypass(origin, request.url, alive) ==> r.invalidated == InvalidatesManifest(request)
    ensures (!Bypass(origin, request.url, alive) && env.manifest.Failure?) ==>
              r.outcome == Rejected(env.manifest.error) && r.store == store
    ensures (!Bypass(origin, request.url, alive) && env.manifest.Success?) ==>
              var out := Through(env.o, origin, store, env.manifest.value, request,
                                 CacheEnabled(request.url), Handler(env, origin, request));
              && r.store == out.store
              && r.outcome == match out.response
                              case Success(response) => Replied(response)
                              case Failure(e) => Rejected(e)
  {
    if Bypass(origin, request.url, alive) then
      FetchResult(BypassFetch(env, request), store, false)
    else
      var invalidated := InvalidatesManifest(request);
      match env.manifest
      case Failure(e) => FetchResult(Rejected(e), store, invalidated)
      case Success(m) =>
        var out := Through(env.o, origin, store, m, request, CacheEnabled(request.url), Handler(env, origin, request));
        match out.response
        case Success(response) => FetchResult(Replied(response), out.store, invalidated)
        case Failure(e) => FetchResult(Rejected(e), out.store, invalidated)
  }

  /** `handleFetch` as evidently intended, with `return await
      this.manifestCache.through(...)`: every error is caught and becomes a
      500, and nothing else differs. */
  function HandleFetchAwaited(env: Env, origin: string, store: Store, request: Request, alive: bool): (r: FetchResult)
    ensures r.store == HandleFetch(env, origin, store, request, alive).store
    ensures r.invalidated == HandleFetch(env, origin, store, request, alive).invalidated
    ensures HandleFetch(env, origin, store, request, alive).outcome.Replied? ==>
              r.outcome == HandleFetch(env, origin, store, request, alive).outcome
    ensures HandleFetch(env, origin, store, request, alive).outcome.Rejected? ==>
              r.outcome == Replied(ServerError(HandleFetch(env, origin, store, request, alive).outcome.error))
  {
    var asWritten := HandleFetch(env, origin, store, request, alive);
    match asWritten.outcome
    case Replied(_) => asWritten
    case Rejected(e) => asWritten.(outcome := Replied(ServerError(e)))
  }

  /** Bypassed requests never touch the cache or the manifest, and their
      promise always settles with a response. */
  lemma BypassLeavesCacheAlone(env: Env, origin: string, store: Store, request: Request, alive: bool)
    requires Bypass(origin, request.url, alive)
    ensures HandleFetch(env, origin, store, request, alive).store == store
    ensures !HandleFetch(env, origin, store, request, alive).invalidated
    ensures HandleFetch(env, origin, store, request, alive).outcome.Replied?
  {
  }

  /** The `accept` test compares untrimmed pieces: a header listing
      `text/html` after a comma and a space does not invalidate the manifest,
      while one listing it first does. */
  lemma AcceptPiecesAreUntrimmed()
    ensures !InvalidatesManifest(Request(Url("", "/", []), map["accept" := "*/*, text/html"]))
    ensures InvalidatesManifest(Request(Url("", "/", []), map["accept" := "text/html,*/*"]))
  {
    var spaced := ["*/*", " text/html"];
    assert Join(spaced, ',') == "*/*, text/html";
    SplitJoin(spaced, ',');
    assert "text/html" !in spaced;
    var tight := ["text/html", "*/*"];
    assert Join(tight, ',') == "text/html,*/*";
    SplitJoin(tight, ',');
  }

  /** The finding, as written: when the cache does not answer and the handler
      throws (here, the network is unreachable for a path that is not
      synthesized), the promise `handleFetch` returns rejects rather than
      settling with a 500. */
  lemma HandlerErrorEscapes(env: Env, origin: string, store: Store, request: Request, alive: bool)
    requires !Bypass(origin, request.url, alive) && env.manifest.Success?
    requires !(CacheEnabled(request.url) && (IsHit(env.o, store, env.manifest.value, request.url)
                                             || IsUnparsable(store, request.url)))
    requires HandlerBody(env, origin, request).response.Failure?
    ensures HandleFetch(env, origin, store, request, alive).outcome
            == Rejected(HandlerBody(env, origin, request).response.error)
  {
  }

  /** A request carrying `nocache` never reads the cache: whatever is
      stored, the handler runs and its result settles the promise, and a
      failed handler leaves the store as it was. */
  lemma NocacheSkipsCache(env: Env, origin: string, store: Store, request: Request, alive: bool)
    requires !Bypass(origin, request.url, alive) && env.manifest.Success?
    requires HasParam(request.url, "nocache")
    ensures HandleFetch(env, origin, store, request, alive).outcome
            == match HandlerBody(env, origin, request).response
               case Success(response) => Replied(response)
               case Failure(e) => Rejected(e)
    ensures HandlerBody(env, origin, request).response.Failure? ==>
              HandleFetch(env, origin, store, request, alive).store == store
  {
  }

  /** Without `nocache`, a stored entry that is still current answers the
      request without running the handler and without changing the store. */
  lemma HitServedFromStore(env: Env, origin: string, store: Store, request: Request, alive: bool)
    requires !Bypass(origin, request.url, alive) && env.manifest.Success?
    requires !HasParam(request.url, "nocache")
    requires IsHit(env.o, store, env.manifest.value, request.url)
    ensures HandleFetch(env, origin, store, request, alive).outcome == Replied(store[request.url])
    ensures HandleFetch(env, origin, store, request, alive).store == store
  {
  }

  /** A worker that lost the network after its manifest loaded: an empty
      manifest, an HTML codec that parses everything to one text node, and
      identity transforms. */
  const Offline := Env(Oracles(s => s, (q, p) => q == p),
                       ContentTypeCodec(h => Failure(h), (m: Media) => m.mime),
                       _ => Failure("TypeError: Failed to fetch"),
                       HtmlCodec(body => TextNode(body), (n: Node) => ""),
                       Transforms((p, r, h) => Success(r), (p, r, h) => Success(r)),
                       Success(Manifest([], [])))

  /** An instance of the finding: a worker that lost the network, asked for
      a `/deps/` file it does not synthesize. */
  lemma OfflineDepsRequestRejects()
    ensures HandleFetch(Offline, "https://app", map[], Request(Url("https://app", "/deps/a.js", []), map[]), true).outcome
            == Rejected("TypeError: Failed to fetch")
  {
    var request := Request(Url("https://app", "/deps/a.js", []), map[]);
    assert StartsWith(request.url.pathname, "/deps/");
    assert !Bypass("https://app", request.url, true);
    HandlerErrorEscapes(Offline, "https://app", map[], request, true);
  }

  /** The corrected handler always settles with a response, and a thrown
      error becomes a 500 carrying the error's text. */
  lemma AwaitedAlwaysReplies(env: Env, origin: string, store: Store, request: Request, alive: bool)
    ensures HandleFetchAwaited(env, origin, store, request, alive).outcome.Replied?
    ensures HandleFetch(env, origin, store, request, alive).outcome.Rejected? ==>
              HandleFetchAwaited(env, origin, store, request, alive).outcome.response.status == 500
  {
  }
}
