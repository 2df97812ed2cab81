/** `handleSynthesizedFile` of worker/src/synthesize-files.ts: which request
    paths are served from the `/scaffolding` tree. */
module Synthesize {
  import opened Wrappers
  import opened Text
  import opened Http

  /** The scaffolding path a request path is served from, if any. */
  function ScaffoldPath(pathname: string): (r: Option<string>)
    ensures StartsWith(pathname, "/deps/") ==> r.None?
    ensures pathname in {"/client.js", "/worker.js"} ==> r.None?
    ensures pathname == "/" ==> r == Some("/scaffolding/index.html")
    ensures (!StartsWith(pathname, "/deps/") && pathname !in {"/client.js", "/worker.js", "/"}) ==>
              r == Some("/scaffolding" + pathname)
  {
    if StartsWith(pathname, "/deps/") then None
    else if pathname in {"/client.js", "/worker.js"} then None
    else if pathname == "/" then Some("/scaffolding/index.html")
    else if pathname in {"/index.html", "/assets/vendor.js", "/assets/vendor.css",
                         "/assets/ember-app.css", "/assets/ember-app.js"} then Some("/scaffolding" + pathname)
    else Some("/scaffolding" + pathname)
  }

  /** The explicitly listed asset paths route exactly as the default case
      does, and the root is served as if `/index.html` had been asked for. */
  lemma ListedPathsAreDefault(pathname: string)
    requires pathname in {"/index.html", "/assets/vendor.js", "/assets/vendor.css",
                          "/assets/ember-app.css", "/assets/ember-app.js"}
    ensures ScaffoldPath(pathname) == Some("/scaffolding" + pathname)
    ensures ScaffoldPath("/") == ScaffoldPath("/index.html")
  {
    NotUnderDeps(pathname);
    NotUnderDeps("/index.html");
    assert "/scaffolding" + "/index.html" == "/scaffolding/index.html";
  }

  /** A path whose second character is not `d` is not under `/deps/`. */
  lemma NotUnderDeps(pathname: string)
    requires |pathname| >= 2 && pathname[1] != 'd'
    ensures !StartsWith(pathname, "/deps/")
  {
  }

  /** Every path served from scaffolding lies under `/scaffolding/`, and a
      request path is served from scaffolding exactly when it is neither a
      `/deps/` file nor one of the worker's own sources. */
  lemma ScaffoldPathShape(pathname: string)
    ensures ScaffoldPath(pathname).Some? <==>
              !StartsWith(pathname, "/deps/") && pathname !in {"/client.js", "/worker.js"}
    ensures ScaffoldPath(pathname).Some? && StartsWith(pathname, "/") ==>
              StartsWith(ScaffoldPath(pathname).value, "/scaffolding/")
  {
  }

  /** `handleSynthesizedFile(pathname)`: the scaffolding response, nothing for
      a path that is not synthesized, or the network error. */
  function HandleSynthesizedFile(origin: string, pathname: string, net: Network): (r: Result<Option<Response>, string>)
    ensures ScaffoldPath(pathname).None? ==> r == Success(None)
    ensures ScaffoldPath(pathname).Some? ==>
              match net(PathRequest(origin, ScaffoldPath(pathname).value))
              case Success(resp) => r == Success(Some(resp))
              case Failure(e) => r == Failure(e)
  {
    match ScaffoldPath(pathname)
    case None => Success(None)
    case Some(path) =>
      match net(PathRequest(origin, path))
      case Success(resp) => Success(Some(resp))
      case Failure(e) => Failure(e)
  }
}
