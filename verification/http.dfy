/** The parts of the Fetch API's `Request`, `Response`, `URL` and `Headers`
    that the service worker reads. */
module Http {
  import opened Wrappers

  /** Header names are stored lower-cased, as `Headers.get` matches them
      case-insensitively. */
  type Headers = map<string, string>

  /** `headers.get(name)`: `null` becomes `None`. */
  function Header(h: Headers, name: string): Option<string> {
    if name in h then Some(h[name]) else None
  }

  /** A parsed `URL`: origin, pathname and the query's name/value pairs in
      order. */
  datatype Url = Url(origin: string, pathname: string, search: seq<(string, string)>)

  /** `url.searchParams.get(name) != null`: the query names `name` at least once. */
  predicate HasParam(u: Url, name: string) {
    exists i :: 0 <= i < |u.search| && u.search[i].0 == name
  }

  datatype Request = Request(url: Url, headers: Headers)

  /** A response: its final resolved URL (absolute), status, status text,
      headers and body text. */
  datatype Response = Response(url: string, status: int, statusText: string, headers: Headers, body: string)

  /** `fetch(request)`: the network's response, or the error the returned
      promise rejects with. */
  type Network = Request -> Result<Response, string>

  /** The content type the Fetch standard gives a string body when the
      headers name none ("extract a body", for a scalar value string). */
  const TextPlain := "text/plain;charset=UTF-8"

  /** `new Response(body, {headers, status})` with a string body: `statusText`
      defaults to empty, `url` is empty for a constructed response, and a
      missing content-type becomes `TextPlain`. */
  function NewResponse(body: string, status: int, headers: Headers): (r: Response)
    ensures r.body == body && r.status == status && r.url == ""
    ensures Header(r.headers, "content-type") == Some(Header(headers, "content-type").GetOr(TextPlain))
    ensures forall k :: k != "content-type" ==> Header(r.headers, k) == Header(headers, k)
  {
    var typed := if "content-type" in headers then headers else headers["content-type" := TextPlain];
    Response("", status, "", typed, body)
  }

  /** `fetch(path)` for a path relative to the worker's origin. */
  function PathRequest(origin: string, path: string): Request {
    Request(Url(origin, path, []), map[])
  }
}
