/** The `emberEntrypoints` loader of worker/src/ember.ts: the paths the
    Ember application shell is assembled from. */
module EmberEntrypoints {
  import opened Wrappers
  import opened Http
  import opened Manifest
  import opened Tracking
  import opened Loaders

  /** Assets served unchanged from the `/scaffolding` tree. */
  const ScaffoldAssets: set<string> := {
    "/assets/vendor.js", "/assets/vendor.css", "/assets/vendor.css.map",
    "/assets/ember-app.css", "/config/environment.js",
    "/ember-welcome-page/images/construction.png"
  }

  /** Where the application's index page is served from. */
  const AppIndex := "/app/index.html"

  const EntryPath := "/_entry_/index.js"
  const AddonMetaPath := "/_addon_meta_test"

  /** What the rendering and crawling collaborators give back: the source text
      the entry template renders, and the result of `emberAddons` (the addon
      list as JSON text, or the error) with the tracker after its
      `onAndWorkCached` call, which no shown file defines. */
  datatype Collaborators = Collaborators(entrySource: string, addons: Result<string, string>, addonsDepend: Tracker)

  /** `scaffold(stage2Name, depend)`: fetch `/scaffolding` + name and observe
      the response. */
  function Scaffold(o: Oracles, p: LoaderParams, stage2Name: string, net: Network): (s: LoaderStep)
    ensures !s.markedVolatile
    ensures net(PathRequest(p.url.origin, "/scaffolding" + stage2Name)).Failure? ==>
              s.depend == p.depend && s.result == Failure(net(PathRequest(p.url.origin, "/scaffolding" + stage2Name)).error)
    ensures net(PathRequest(p.url.origin, "/scaffolding" + stage2Name)).Success? ==>
              var resp := net(PathRequest(p.url.origin, "/scaffolding" + stage2Name)).value;
              s == LoaderStep(Success(Claimed(resp)), On(o, p.depend, resp), false)
  {
    match net(PathRequest(p.url.origin, "/scaffolding" + stage2Name))
    case Failure(e) => Quiet(p, Failure(e))
    case Success(resp) => LoaderStep(Success(Claimed(resp)), On(o, p.depend, resp), false)
  }

  /** `emberJSEntrypoint`: the rendered entry module, labelled as JavaScript. */
  function EntryResponse(source: string): (r: Response)
    ensures r.body == source && r.status == 200
    ensures Header(r.headers, "content-type") == Some("application/javascript")
  {
    NewResponse(source, 200, map["content-type" := "application/javascript"])
  }

  /** The `emberEntrypoints` switch on the relative path. A failed addon
      crawl rejects before `isVolatile` is reached, so only a successful one
      marks the response volatile. */
  function Entrypoints(o: Oracles, p: LoaderParams, net: Network, c: Collaborators): (s: LoaderStep)
    ensures s.markedVolatile <==> p.relativePath == Some(AddonMetaPath) && c.addons.Success?
    ensures (p.relativePath.Some? && p.relativePath.value in ScaffoldAssets) ==>
              s == Scaffold(o, p, p.relativePath.value, net)
    ensures p.relativePath in {Some("/"), Some("/index.html")} ==>
              s == Quiet(p, Success(Rewrite(AppIndex)))
    ensures p.relativePath == Some(EntryPath) ==>
              s == Quiet(p, Success(Claimed(EntryResponse(c.entrySource))))
    ensures p.relativePath == Some(AddonMetaPath) ==>
              && s.depend == c.addonsDepend
              && (c.addons.Failure? ==> s.result == Failure(c.addons.error))
              && (c.addons.Success? ==> s.result == Success(Claimed(NewResponse(c.addons.value, 200, map[]))))
    ensures (p.relativePath.None? || p.relativePath.value !in ScaffoldAssets + {"/", "/index.html", EntryPath, AddonMetaPath}) ==>
              s == Quiet(p, Success(Undefined))
  {
    match p.relativePath
    case None => Quiet(p, Success(Undefined))
    case Some(rel) =>
      if rel in ScaffoldAssets then Scaffold(o, p, rel, net)
      else if rel == "/" || rel == "/index.html" then Quiet(p, Success(Rewrite(AppIndex)))
      else if rel == EntryPath then Quiet(p, Success(Claimed(EntryResponse(c.entrySource))))
      else if rel == AddonMetaPath then
        match c.addons
        case Failure(e) => LoaderStep(Failure(e), c.addonsDepend, false)
        case Success(json) => LoaderStep(Success(Claimed(NewResponse(json, 200, map[]))), c.addonsDepend, true)
      else Quiet(p, Success(Undefined))
  }

  /** The rewrite does not loop: once the loaders restart on `/app/index.html`,
      this loader makes no claim on it. */
  lemma RewriteTargetIsNotACase(o: Oracles, p: LoaderParams, net: Network, c: Collaborators)
    requires Entrypoints(o, p, net, c).result == Success(Rewrite(AppIndex))
    ensures Entrypoints(o, p.(relativePath := Some(AppIndex)), net, c).result == Success(Undefined)
  {
  }

  /** Only scaffolded assets are observed through `on`; the rewrite, the
      entry module and unlisted paths leave the tracker as it was. */
  lemma OnlyAssetsAreObserved(o: Oracles, p: LoaderParams, net: Network, c: Collaborators)
    requires p.relativePath != Some(AddonMetaPath)
    requires p.relativePath.None? || p.relativePath.value !in ScaffoldAssets
    ensures Entrypoints(o, p, net, c).depend == p.depend
  {
  }
}
