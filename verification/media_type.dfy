/** `mediaType` of worker/src/media-type.ts: how the worker classifies a
    response, and which headers it forwards with the transformed body. */
module MediaTypes {
  import opened Wrappers
  import opened Text
  import opened Http

  /** A parsed `Content-Type`: the media type and its parameters. */
  datatype Media = Media(mime: string, parameters: map<string, string>)

  /** The `content-type` package: `parse` rejects a malformed header (it
      throws), `format` renders a media value back into a header. Neither is
      interpreted here. */
  datatype ContentTypeCodec = ContentTypeCodec(parse: string -> Result<Media, string>, format: Media -> string)

  const OctetStream := "application/octet-stream"
  const Javascript := "application/javascript"
  const GlimmerHbs := "application/vnd.glimmer.hbs"
  const Html := "text/html"

  /** The classification and the headers to send on. */
  datatype Classified = Classified(media: Media, forwardHeaders: Headers)

  /** The media type the response declares: a missing or empty
      `content-type` counts as `application/octet-stream` with no
      parameters; anything else goes through `parse`. */
  function Declared(c: ContentTypeCodec, r: Response): (m: Result<Media, string>)
    ensures Header(r.headers, "content-type") in {None, Some("")} ==>
              m == Success(Media(OctetStream, map[]))
    ensures (Header(r.headers, "content-type").Some? && Header(r.headers, "content-type").value != "") ==>
              m == c.parse(Header(r.headers, "content-type").value)
  {
    match Header(r.headers, "content-type")
    case Some(h) => if h != "" then c.parse(h) else Success(Media(OctetStream, map[]))
    case None => Success(Media(OctetStream, map[]))
  }

  /** `mediaType(response)`. A response URL ending in `.ts` is classified as
      JavaScript and forwarded with the reformatted media as its
      content-type; one ending in `.hbs` is classified as Glimmer handlebars
      but forwarded as JavaScript with the declared parameters; any other
      response keeps its declared type and its own headers. The parse error
      of a malformed header is propagated. */
  function MediaTypeOf(c: ContentTypeCodec, r: Response): (res: Result<Classified, string>)
    ensures res.Failure? <==> Declared(c, r).Failure?
    ensures res.Success? ==> res.value.media.parameters == Declared(c, r).value.parameters
    ensures res.Success? && EndsWith(r.url, ".ts") ==>
              && res.value.media == Media(Javascript, Declared(c, r).value.parameters)
              && res.value.forwardHeaders == r.headers["content-type" := c.format(res.value.media)]
    ensures res.Success? && EndsWith(r.url, ".hbs") ==>
              && res.value.media == Media(GlimmerHbs, Declared(c, r).value.parameters)
              && res.value.forwardHeaders
                 == r.headers["content-type" := c.format(Media(Javascript, Declared(c, r).value.parameters))]
    ensures (res.Success? && !EndsWith(r.url, ".ts") && !EndsWith(r.url, ".hbs")) ==>
              res.value == Classified(Declared(c, r).value, r.headers)
  {
    SuffixesExclusive(r.url);
    match Declared(c, r)
    case Failure(e) => Failure(e)
    case Success(declared) =>
      var afterTs :=
        if EndsWith(r.url, ".ts") then
          var m := declared.(mime := Javascript);
          Classified(m, r.headers["content-type" := c.format(m)])
        else Classified(declared, r.headers);
      var afterHbs :=
        if EndsWith(r.url, ".hbs") then
          Classified(afterTs.media.(mime := GlimmerHbs),
                     afterTs.forwardHeaders["content-type" := c.format(Media(Javascript, afterTs.media.parameters))])
        else afterTs;
      Success(afterHbs)
  }

  /** No URL ends in both `.ts` and `.hbs`, so at most one rewrite applies. */
  lemma SuffixesExclusive(url: string)
    ensures !(EndsWith(url, ".ts") && EndsWith(url, ".hbs"))
  {
    if EndsWith(url, ".ts") {
      assert url[|url| - 2] == ".ts"[1] == 't';
    }
  }

  /** Whichever suffix applies, the browser is told the body is JavaScript
      carrying the declared parameters; without one, the declared
      content-type header reaches the browser as it was. */
  lemma ForwardedTypeIsJavascript(c: ContentTypeCodec, r: Response)
    requires MediaTypeOf(c, r).Success?
    ensures EndsWith(r.url, ".ts") || EndsWith(r.url, ".hbs") ==>
              Header(MediaTypeOf(c, r).value.forwardHeaders, "content-type")
              == Some(c.format(Media(Javascript, Declared(c, r).value.parameters)))
    ensures !EndsWith(r.url, ".ts") && !EndsWith(r.url, ".hbs") ==>
              Header(MediaTypeOf(c, r).value.forwardHeaders, "content-type") == Header(r.headers, "content-type")
    ensures forall k :: k != "content-type" ==>
              Header(MediaTypeOf(c, r).value.forwardHeaders, k) == Header(r.headers, k)
  {
  }
}
