/** `DependencyTracker` of worker/src/manifest.ts: records which manifest
    queries and which fetched responses a computation depended on. */
module Tracking {
  import opened Wrappers
  import opened Text
  import opened Http
  import opened Manifest
  import Json

  /** One `[query, digest]` pair of the `x-manifest-deps` header. */
  datatype Tag = Tag(query: string, digest: string)

  /** A tracker: the mount point, the manifest snapshot it hashes against,
      the one-way `cacheable` flag and the tags in recording order. */
  datatype Tracker = Tracker(baseURL: string, manifest: Manifest, cacheable: bool, tags: seq<Tag>)

  /** `new DependencyTracker(baseURL, manifest)`. */
  function NewTracker(baseURL: string, m: Manifest): Tracker {
    Tracker(baseURL, m, true, [])
  }

  /** Every tag's digest is what `cacheTagFor` computes for its query against
      `m`: a cache entry carrying these tags validates against `m`. */
  predicate TagsValid(o: Oracles, m: Manifest, tags: seq<Tag>) {
    forall k :: 0 <= k < |tags| ==> tags[k].digest == CacheTagFor(o, m, tags[k].query)
  }

  // ---------------------------------------------------------------------
  // queryManifest

  /** `queryManifest` is a generator function with no `yield`: calling it only
      creates a suspended generator, and its body runs on the first `next()`,
      which then reports `done` together with the returned paths. */
  datatype QueryGenerator = Suspended(query: string) | Completed

  /** The `{ value, done }` record `next()` returns. */
  datatype IterResult = IterResult(value: Option<seq<string>>, done: bool)

  /** The loop of `queryManifest`: for every matching entry, remember the path
      and feed path and etag to the running hash. */
  function QueryLoop(o: Oracles, files: seq<(string, string)>, q: string, h: Crc32, paths: seq<string>)
    : (Crc32, seq<string>)
    decreases |files|
  {
    if |files| == 0 then (h, paths)
    else if o.matches(q, files[0].0) then
      QueryLoop(o, files[1..], q, h.Update(files[0].0).Update(files[0].1), paths + [files[0].0])
    else QueryLoop(o, files[1..], q, h, paths)
  }

  /** `generator.next()`: a suspended generator runs the whole body and
      records one tag; a completed one does nothing more. */
  function Next(o: Oracles, t: Tracker, g: QueryGenerator): (r: (Tracker, QueryGenerator, IterResult))
    ensures r.1 == Completed && r.2.done
    ensures g.Completed? ==> r.0 == t && r.2.value.None?
    ensures g.Suspended? ==>
              && r.0 == t.(tags := r.0.tags)
              && |r.0.tags| == |t.tags| + 1 && t.tags <= r.0.tags
              && r.0.tags[|t.tags|].query == g.query
              && r.2.value.Some?
              && r.2.value.value == Paths(MatchingEntries(o, t.manifest.files, g.query))
  {
    match g
    case Suspended(q) =>
      QueryLoopIsMatching(o, t.manifest.files, q, EmptyHash, []);
      var (h, paths) := QueryLoop(o, t.manifest.files, q, EmptyHash, []);
      (t.(tags := t.tags + [Tag(q, h.Digest(o))]), Completed, IterResult(Some(paths), true))
    case Completed =>
      (t, Completed, IterResult(None, true))
  }

  /** The one-pass loop computes exactly the matching paths and the hash over
      the matching entries. */
  lemma {:induction false} QueryLoopIsMatching(o: Oracles, files: seq<(string, string)>, q: string, h: Crc32, paths: seq<string>)
    ensures QueryLoop(o, files, q, h, paths)
         == (Feed(h, MatchingEntries(o, files, q)), paths + Paths(MatchingEntries(o, files, q)))
    decreases |files|
  {
    if |files| > 0 {
      var rest := MatchingEntries(o, files[1..], q);
      if o.matches(q, files[0].0) {
        var e := Entry(files[0].0, files[0].1);
        QueryLoopIsMatching(o, files[1..], q, h.Update(e.path).Update(e.etag), paths + [e.path]);
        assert ([e] + rest)[1..] == rest;
        assert Paths([e] + rest) == [e.path] + Paths(rest);
        assert paths + [e.path] + Paths(rest) == paths + ([e.path] + Paths(rest));
        assert Feed(h, [e] + rest) == Feed(h.Update(e.path).Update(e.etag), rest);
      } else {
        QueryLoopIsMatching(o, files[1..], q, h, paths);
      }
    } else {
      assert paths + Paths([]) == paths;
    }
  }

  /** Write-then-validate for a manifest query: the first `next()` records
      `[query, cacheTagFor(manifest, query)]`, returns the matching paths in
      manifest order and reports `done`; nothing else in the tracker moves. */
  lemma QueryManifestRecordsCacheTag(o: Oracles, t: Tracker, q: string)
    ensures var (t', g', r) := Next(o, t, Suspended(q));
      && t' == t.(tags := t.tags + [Tag(q, CacheTagFor(o, t.manifest, q))])
      && r == IterResult(Some(Paths(MatchingEntries(o, t.manifest.files, q))), true)
      && g' == Completed
  {
    QueryLoopIsMatching(o, t.manifest.files, q, EmptyHash, []);
    assert [] + Paths(MatchingEntries(o, t.manifest.files, q)) == Paths(MatchingEntries(o, t.manifest.files, q));
  }

  /** A `for ... of` over the generator never enters its body, since the very
      first `next()` already reports `done`; a finished generator records
      nothing more. */
  lemma QueryGeneratorYieldsNothing(o: Oracles, t: Tracker, g: QueryGenerator)
    ensures Next(o, t, g).2.done
    ensures g.Completed? ==> Next(o, t, g).0 == t && Next(o, t, g).2.value.None?
  {
  }

  // ---------------------------------------------------------------------
  // on(response)

  /** The cache-control directive that marks third-party bundles immutable. */
  const ImmutableMaxAge := "max-age=604800"

  /** A non-empty `cache-control` header containing `max-age=604800`. */
  predicate Immutable(r: Response) {
    match Header(r.headers, "cache-control")
    case Some(cc) => cc != "" && Contains(cc, ImmutableMaxAge)
    case None => false
  }

  /** An excluded entry ending in "/" excludes every path under it; any other
      entry excludes exactly itself. */
  predicate ExcludedBy(excluded: string, local: string) {
    if EndsWith(excluded, "/") then StartsWith(local, excluded) else excluded == local
  }

  predicate IsExcluded(m: Manifest, local: string) {
    exists i :: 0 <= i < |m.excluded| && ExcludedBy(m.excluded[i], local)
  }

  /** `response.url.replace(baseURL, '')`. */
  function LocalPath(baseURL: string, url: string): string {
    ReplaceFirst(url, baseURL, "")
  }

  /** Inside the mount point the replacement strips exactly the leading
      `baseURL`, leaving a path that starts with "/". */
  lemma LocalPathStripsBase(baseURL: string, url: string)
    requires StartsWith(url, baseURL + "/")
    ensures LocalPath(baseURL, url) == url[|baseURL|..]
    ensures StartsWith(LocalPath(baseURL, url), "/")
  {
    assert url[..|baseURL|] == (baseURL + "/")[..|baseURL|];
    assert StartsWith(url, baseURL);
    assert url[|baseURL|..][..1] == url[..|baseURL| + 1][|baseURL|..];
  }

  /** `response.headers.get('etag')`, with the empty string counted as
      missing, as the source's truthiness test does. */
  function Etag(r: Response): Option<string> {
    match Header(r.headers, "etag")
    case Some(e) => if e == "" then None else Some(e)
    case None => None
  }

  /** The response is inside the mount point and not excluded: the case in
      which `on` records a tag or gives up for want of an etag. */
  predicate Trackable(t: Tracker, r: Response) {
    && StartsWith(r.url, t.baseURL + "/")
    && !IsExcluded(t.manifest, LocalPath(t.baseURL, r.url))
  }

  /** `on(response)`: the resource-recording decision table. */
  function On(o: Oracles, t: Tracker, r: Response): (t': Tracker)
    ensures t'.baseURL == t.baseURL && t'.manifest == t.manifest
    ensures t'.cacheable ==> t.cacheable
    ensures !t.cacheable ==> t' == t
    ensures t.cacheable && Immutable(r) ==> t' == t
    ensures (t.cacheable && !Immutable(r) && !StartsWith(r.url, t.baseURL + "/"))
              ==> t' == t.(cacheable := false)
    ensures (t.cacheable && !Immutable(r) && StartsWith(r.url, t.baseURL + "/")
             && IsExcluded(t.manifest, LocalPath(t.baseURL, r.url)))
              ==> t' == t.(cacheable := false)
    ensures (t.cacheable && !Immutable(r) && Trackable(t, r) && r.status == 404)
              ==> t' == t.(tags := t.tags + [Tag(LocalPath(t.baseURL, r.url), EmptyHash.Digest(o))])
    ensures (t.cacheable && !Immutable(r) && Trackable(t, r) && r.status != 404 && Etag(r).None?)
              ==> t' == t.(cacheable := false)
    ensures (t.cacheable && !Immutable(r) && Trackable(t, r) && r.status != 404 && Etag(r).Some?)
              ==> var local := LocalPath(t.baseURL, r.url);
                  t' == t.(tags := t.tags + [Tag(local, o.crc(local + SliceInner(Etag(r).value)))])
  {
    if !t.cacheable then t
    else if Immutable(r) then t
    else if !StartsWith(r.url, t.baseURL + "/") then t.(cacheable := false)
    else OnInside(o, t, r)
  }

  /** The rows of `on` for a response inside the mount point. */
  function OnInside(o: Oracles, t: Tracker, r: Response): (t': Tracker)
    requires StartsWith(r.url, t.baseURL + "/")
    ensures IsExcluded(t.manifest, LocalPath(t.baseURL, r.url)) ==> t' == t.(cacheable := false)
    ensures (!IsExcluded(t.manifest, LocalPath(t.baseURL, r.url)) && r.status == 404)
              ==> t' == t.(tags := t.tags + [Tag(LocalPath(t.baseURL, r.url), EmptyHash.Digest(o))])
    ensures (!IsExcluded(t.manifest, LocalPath(t.baseURL, r.url)) && r.status != 404 && Etag(r).None?)
              ==> t' == t.(cacheable := false)
    ensures (!IsExcluded(t.manifest, LocalPath(t.baseURL, r.url)) && r.status != 404 && Etag(r).Some?)
              ==> var local := LocalPath(t.baseURL, r.url);
                  t' == t.(tags := t.tags + [Tag(local, o.crc(local + SliceInner(Etag(r).value)))])
  {
    var local := LocalPath(t.baseURL, r.url);
    if IsExcluded(t.manifest, local) then t.(cacheable := false)
    else if r.status == 404 then t.(tags := t.tags + [Tag(local, EmptyHash.Digest(o))])
    else match Etag(r)
      case None => t.(cacheable := false)
      case Some(e) =>
        var h := EmptyHash.Update(local).Update(SliceInner(e));
        assert h.fed == local + SliceInner(e);
        t.(tags := t.tags + [Tag(local, h.Digest(o))])
  }

  /** `on` only ever appends: the old tags are a prefix of the new ones and at
      most one tag is added. */
  lemma OnAppendsAtMostOne(o: Oracles, t: Tracker, r: Response)
    ensures t.tags <= On(o, t, r).tags
    ensures |On(o, t, r).tags| <= |t.tags| + 1
    ensures !On(o, t, r).cacheable ==> On(o, t, r).tags == t.tags
  {
  }

  /** The manifest agrees with what `on` observed: a 404 for a path nothing
      matches, or an etag (quotes stripped) equal to the manifest's etag for
      a path that is its own only match. */
  ghost predicate ObservationAgrees(o: Oracles, t: Tracker, r: Response) {
    var local := LocalPath(t.baseURL, r.url);
    (t.cacheable && !Immutable(r) && Trackable(t, r)) ==>
      && (r.status == 404 ==> MatchingEntries(o, t.manifest.files, local) == [])
      && (r.status != 404 && Etag(r).Some? ==>
            MatchingEntries(o, t.manifest.files, local) == [Entry(local, SliceInner(Etag(r).value))])
  }

  /** Write-then-validate for an observed response: when the manifest agrees
      with the observation, the tag `on` records is `cacheTagFor` of its path,
      so valid tags stay valid. */
  lemma OnKeepsTagsValid(o: Oracles, t: Tracker, r: Response)
    requires TagsValid(o, t.manifest, t.tags)
    requires ObservationAgrees(o, t, r)
    ensures TagsValid(o, t.manifest, On(o, t, r).tags)
  {
    var t' := On(o, t, r);
    var local := LocalPath(t.baseURL, r.url);
    if t.cacheable && !Immutable(r) && Trackable(t, r) {
      if r.status == 404 {
        assert MatchingEntries(o, t.manifest.files, local) == [];
        assert Concat([]) == "";
        assert CacheTagFor(o, t.manifest, local) == o.crc("");
        assert t'.tags[|t.tags|] == Tag(local, CacheTagFor(o, t.manifest, local));
      } else if Etag(r).Some? {
        var es := [Entry(local, SliceInner(Etag(r).value))];
        assert Concat(es) == local + SliceInner(Etag(r).value) + Concat([]);
        assert Concat(es) == local + SliceInner(Etag(r).value);
        assert t'.tags[|t.tags|] == Tag(local, CacheTagFor(o, t.manifest, local));
      }
    }
  }

  /** The 404 tag is the digest of nothing, which is `cacheTagFor` of the
      path whenever no manifest path matches it. */
  lemma NotFoundTagIsCacheTag(o: Oracles, t: Tracker, r: Response)
    requires t.cacheable && !Immutable(r) && Trackable(t, r) && r.status == 404
    requires forall i :: 0 <= i < |t.manifest.files| ==> !o.matches(LocalPath(t.baseURL, r.url), t.manifest.files[i].0)
    ensures On(o, t, r).tags == t.tags + [Tag(LocalPath(t.baseURL, r.url), CacheTagFor(o, t.manifest, LocalPath(t.baseURL, r.url)))]
  {
    NoMatchIsEmptyDigest(o, t.manifest, LocalPath(t.baseURL, r.url));
  }

  /** Point-tag agreement under the literal-query assumption: a 404 for a path
      absent from the manifest, and an etag equal to the manifest's etag for
      a path present in it, are both observations the manifest agrees with. */
  lemma LiteralObservationAgrees(o: Oracles, t: Tracker, r: Response)
    requires DistinctPaths(t.manifest)
    requires LiteralQuery(o, LocalPath(t.baseURL, r.url))
    requires r.status == 404 ==>
      forall i :: 0 <= i < |t.manifest.files| ==> t.manifest.files[i].0 != LocalPath(t.baseURL, r.url)
    requires r.status != 404 && Etag(r).Some? ==>
      exists i :: 0 <= i < |t.manifest.files| && t.manifest.files[i] == (LocalPath(t.baseURL, r.url), SliceInner(Etag(r).value))
    ensures ObservationAgrees(o, t, r)
  {
    LiteralMatches(o, t.manifest.files, LocalPath(t.baseURL, r.url));
  }

  // ---------------------------------------------------------------------
  // generateHeader

  /** The tags as the `[query, digest]` string pairs the tracker pushes. */
  function TagPairs(tags: seq<Tag>): (pairs: seq<(string, string)>)
    ensures |pairs| == |tags|
    ensures forall k :: 0 <= k < |tags| ==> pairs[k] == (tags[k].query, tags[k].digest)
  {
    seq(|tags|, k requires 0 <= k < |tags| => (tags[k].query, tags[k].digest))
  }

  /** `[query, digest]` string pairs read back as tags. */
  function PairTags(pairs: seq<(string, string)>): (tags: seq<Tag>)
    ensures |tags| == |pairs|
    ensures forall k :: 0 <= k < |pairs| ==> tags[k] == Tag(pairs[k].0, pairs[k].1)
  {
    seq(|pairs|, k requires 0 <= k < |pairs| => Tag(pairs[k].0, pairs[k].1))
  }

  lemma PairTagsOfTagPairs(tags: seq<Tag>)
    ensures PairTags(TagPairs(tags)) == tags
  {
  }

  /** `JSON.stringify(this.tags)`. */
  function DepsJson(tags: seq<Tag>): string {
    Json.JsonPairs(TagPairs(tags))
  }

  /** `generateHeader()`: the tags in recording order as JSON while
      cacheable, `undefined` otherwise. */
  function GenerateHeader(t: Tracker): (h: Option<string>)
    ensures h.Some? <==> t.cacheable
    ensures h.Some? ==> h.value == DepsJson(t.tags)
  {
    if t.cacheable then Some(DepsJson(t.tags)) else None
  }

  /** The header reads back as the tags it was generated from, and is never
      empty, so `if (xManifestDeps)` always sees it. */
  lemma GenerateHeaderRoundTrip(t: Tracker)
    requires t.cacheable
    ensures |GenerateHeader(t).value| >= 2
    ensures Json.ParsePairs(GenerateHeader(t).value).Some?
    ensures PairTags(Json.ParsePairs(GenerateHeader(t).value).value) == t.tags
  {
    Json.ParseJsonPairs(TagPairs(t.tags));
    PairTagsOfTagPairs(t.tags);
  }

  // ---------------------------------------------------------------------
  // A handler's use of the tracker

  /** One call a handler makes on its tracker: a manifest query driven to
      completion, or `on(response)`. */
  datatype TrackerOp = Query(query: string) | Observe(response: Response)

  function Apply(o: Oracles, t: Tracker, op: TrackerOp): Tracker {
    match op
    case Query(q) => Next(o, t, Suspended(q)).0
    case Observe(r) => On(o, t, r)
  }

  /** Runs the calls in order. */
  function Run(o: Oracles, t: Tracker, ops: seq<TrackerOp>): Tracker
    decreases |ops|
  {
    if |ops| == 0 then t else Run(o, Apply(o, t, ops[0]), ops[1..])
  }

  /** The manifest agrees with every observation, each judged in the tracker
      state it is made in. */
  ghost predicate AllObservationsAgree(o: Oracles, t: Tracker, ops: seq<TrackerOp>)
    decreases |ops|
  {
    |ops| > 0 ==>
      && (ops[0].Observe? ==> ObservationAgrees(o, t, ops[0].response))
      && AllObservationsAgree(o, Apply(o, t, ops[0]), ops[1..])
  }

  /** Whatever a handler does, the flag is only ever cleared, tags are only
      appended, and the tracker keeps its mount point and manifest. */
  lemma {:induction false} RunMonotone(o: Oracles, t: Tracker, ops: seq<TrackerOp>)
    ensures Run(o, t, ops).cacheable ==> t.cacheable
    ensures t.tags <= Run(o, t, ops).tags
    ensures Run(o, t, ops).manifest == t.manifest && Run(o, t, ops).baseURL == t.baseURL
    decreases |ops|
  {
    if |ops| > 0 {
      var t1 := Apply(o, t, ops[0]);
      if ops[0].Query? {
        QueryManifestRecordsCacheTag(o, t, ops[0].query);
      } else {
        OnAppendsAtMostOne(o, t, ops[0].response);
      }
      RunMonotone(o, t1, ops[1..]);
    }
  }

  /** Once uncacheable, observations change nothing; only manifest queries
      still append tags (their body does not look at the flag). */
  lemma {:induction false} UncacheableStaysUncacheable(o: Oracles, t: Tracker, ops: seq<TrackerOp>)
    requires !t.cacheable
    ensures !Run(o, t, ops).cacheable
    ensures (forall k :: 0 <= k < |ops| ==> ops[k].Observe?) ==> Run(o, t, ops) == t
    decreases |ops|
  {
    if |ops| > 0 {
      var t1 := Apply(o, t, ops[0]);
      if ops[0].Query? {
        QueryManifestRecordsCacheTag(o, t, ops[0].query);
      }
      assert forall k :: 0 <= k < |ops[1..]| ==> ops[1..][k] == ops[k + 1];
      UncacheableStaysUncacheable(o, t1, ops[1..]);
    }
  }

  /** Write-then-validate for a whole handler: starting from a fresh tracker,
      when the manifest agrees with every observation, every recorded tag is
      `cacheTagFor` of its query against the tracker's manifest. */
  lemma {:induction false} RunKeepsTagsValid(o: Oracles, t: Tracker, ops: seq<TrackerOp>)
    requires TagsValid(o, t.manifest, t.tags)
    requires AllObservationsAgree(o, t, ops)
    ensures TagsValid(o, t.manifest, Run(o, t, ops).tags)
    decreases |ops|
  {
    if |ops| > 0 {
      var t1 := Apply(o, t, ops[0]);
      if ops[0].Query? {
        QueryManifestRecordsCacheTag(o, t, ops[0].query);
      } else {
        OnKeepsTagsValid(o, t, ops[0].response);
      }
      RunKeepsTagsValid(o, t1, ops[1..]);
      RunMonotone(o, t1, ops[1..]);
    }
  }
}
