/** The loader protocol of worker/src/loader.ts and the four built-in
    loaders of worker/src/core-loaders.ts. */
module Loaders {
  import opened Wrappers
  import opened Http
  import opened Manifest
  import opened Tracking

  /** `LoaderResult`: no claim, a response claimed as it is, a response
      marked done with an optional body and a transform flag, or a rewrite
      that restarts the loaders as if the request had named `target`. */
  datatype LoaderResult =
    | Undefined
    | Claimed(response: Response)
    | Settled(body: Option<Response>, transform: bool)
    | Rewrite(target: string)

  /** `LoaderParams`: the request, its parsed URL, the mount point, the part
      of the URL inside it (absent outside the mount point) and the tracker. */
  datatype LoaderParams = LoaderParams(request: Request, url: Url, baseURL: string,
                                       relativePath: Option<string>, depend: Tracker)

  /** What one loader call does: its result, or the error its promise rejects
      with; the tracker afterwards; and whether it called
      `depend.isVolatile()`, which no shown file defines and so is recorded
      rather than interpreted. */
  datatype LoaderStep = LoaderStep(result: Result<LoaderResult, string>, depend: Tracker, markedVolatile: bool)

  /** A loader step that leaves the tracker alone. */
  function Quiet(p: LoaderParams, result: Result<LoaderResult, string>): LoaderStep {
    LoaderStep(result, p.depend, false)
  }

  /** `await fetch(...)` inside a loader: a network failure rejects the
      loader's promise. */
  function Fetched(fetched: Result<Response, string>, claim: bool): Result<LoaderResult, string> {
    match fetched
    case Success(r) => Success(if claim then Claimed(r) else Settled(Some(r), false))
    case Failure(e) => Failure(e)
  }

  /** `debugParamsLoader`: `?network` sends the request straight to the
      network (after `isVolatile`) and marks the result done; failing that,
      `?untranspiled` marks it done with no response; otherwise no claim.
      `network` wins when both are present. */
  function DebugParams(p: LoaderParams, net: Network): (s: LoaderStep)
    ensures s.depend == p.depend
    ensures s.markedVolatile <==> HasParam(p.url, "network")
    ensures HasParam(p.url, "network") && net(p.request).Success? ==>
              s.result == Success(Settled(Some(net(p.request).value), false))
    ensures HasParam(p.url, "network") && net(p.request).Failure? ==>
              s.result == Failure(net(p.request).error)
    ensures !HasParam(p.url, "network") && HasParam(p.url, "untranspiled") ==>
              s.result == Success(Settled(None, false))
    ensures !HasParam(p.url, "network") && !HasParam(p.url, "untranspiled") ==>
              s.result == Success(Undefined)
  {
    if HasParam(p.url, "network") then
      LoaderStep(Fetched(net(p.request), false), p.depend, true)
    else if HasParam(p.url, "untranspiled") then
      Quiet(p, Success(Settled(None, false)))
    else
      Quiet(p, Success(Undefined))
  }

  /** The service worker's own sources, which are never rewritten. */
  const WorkerSources: seq<string> := ["/client.js", "/worker.js"]

  /** `workerSourceLoader`: claims exactly the worker's own two sources
      inside the mount point, fetching them untouched after `isVolatile`. */
  function WorkerSource(p: LoaderParams, net: Network): (s: LoaderStep)
    ensures s.depend == p.depend
    ensures s.markedVolatile <==> p.relativePath.Some? && p.relativePath.value in WorkerSources
    ensures s.markedVolatile && net(p.request).Success? ==> s.result == Success(Claimed(net(p.request).value))
    ensures s.markedVolatile && net(p.request).Failure? ==> s.result == Failure(net(p.request).error)
    ensures !s.markedVolatile ==> s.result == Success(Undefined)
  {
    match p.relativePath
    case Some(rel) =>
      // an empty relative path is falsy in the source; it is not listed either
      if rel != "" && rel in WorkerSources then
        LoaderStep(Fetched(net(p.request), true), p.depend, true)
      else Quiet(p, Success(Undefined))
    case None => Quiet(p, Success(Undefined))
  }

  /** `fetchLoader`: every fetched response, a 404 included, is observed by
      the tracker; a 404 defers to later loaders, anything else is claimed. */
  function FetchLoader(o: Oracles, p: LoaderParams, net: Network): (s: LoaderStep)
    ensures !s.markedVolatile
    ensures net(p.request).Failure? ==> s == Quiet(p, Failure(net(p.request).error))
    ensures net(p.request).Success? ==> s.depend == On(o, p.depend, net(p.request).value)
    ensures net(p.request).Success? ==>
              s.result == if net(p.request).value.status == 404 then Success(Undefined)
                          else Success(Claimed(net(p.request).value))
  {
    match net(p.request)
    case Failure(e) => Quiet(p, Failure(e))
    case Success(response) =>
      var depend := On(o, p.depend, response);
      LoaderStep(Success(if response.status == 404 then Undefined else Claimed(response)), depend, false)
  }

  /** Where the HTML fallback sends a request. */
  const FallbackTarget := "/index.html?nofallback"

  /** The URL `FallbackTarget` names when resolved against `origin`. */
  function FallbackUrl(origin: string): Url {
    Url(origin, "/index.html", [("nofallback", "")])
  }

  /** `indexHTMLFallback`: a request that accepts HTML and does not already
      carry `nofallback` is rewritten to the app's index page. `accepts`
      (imported from worker/src/media-type.ts by core-loaders.ts) is not
      modelled: whether the request accepts `text/html` is the `acceptsHtml`
      argument. */
  function IndexHtmlFallback(p: LoaderParams, acceptsHtml: bool): (s: LoaderStep)
    ensures s.depend == p.depend && !s.markedVolatile
    ensures s.result == Success(Rewrite(FallbackTarget)) <==> acceptsHtml && !HasParam(p.url, "nofallback")
    ensures s.result != Success(Rewrite(FallbackTarget)) ==> s.result == Success(Undefined)
  {
    if acceptsHtml && !HasParam(p.url, "nofallback") then Quiet(p, Success(Rewrite(FallbackTarget)))
    else Quiet(p, Success(Undefined))
  }

  /** The fallback cannot fire twice in a chain: the request it rewrites to
      carries `nofallback`, so the fallback makes no claim on it, whatever
      that request accepts. */
  lemma FallbackFiresOnce(p: LoaderParams, acceptsHtml: bool, q: LoaderParams, acceptsAgain: bool)
    requires IndexHtmlFallback(p, acceptsHtml).result == Success(Rewrite(FallbackTarget))
    requires q.url == FallbackUrl(p.url.origin)
    ensures IndexHtmlFallback(q, acceptsAgain).result == Success(Undefined)
  {
    assert q.url.search[0].0 == "nofallback";
  }

  /** Of the four loaders, only `fetchLoader` records anything on the
      tracker, and it records exactly what `on` records for the fetched
      response: at most one tag. */
  lemma FetchLoaderRecordsAtMostOneTag(o: Oracles, p: LoaderParams, net: Network)
    ensures |FetchLoader(o, p, net).depend.tags| <= |p.depend.tags| + 1
    ensures p.depend.tags <= FetchLoader(o, p, net).depend.tags
    ensures !p.depend.cacheable ==> FetchLoader(o, p, net).depend == p.depend
  {
    if net(p.request).Success? {
      OnAppendsAtMostOne(o, p.depend, net(p.request).value);
    }
  }
}
