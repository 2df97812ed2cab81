/** The manifest and the tag hasher of worker/src/manifest.ts: which manifest
    entries a query matches, and the CRC32 digest over them. */
module Manifest {

  /** `{ files, excluded }` as served at `/manifest`: the files table in
      `Object.entries` order (path, etag), and the excluded paths, where an
      entry ending in "/" excludes a whole prefix. */
  datatype Manifest = Manifest(files: seq<(string, string)>, excluded: seq<string>)

  /** A JSON object cannot repeat a key, so every path occurs once. */
  predicate DistinctPaths(m: Manifest) {
    forall i, j :: 0 <= i < j < |m.files| ==> m.files[i].0 != m.files[j].0
  }

  /** The two third-party engines the hasher relies on, left uninterpreted:
      `crc(s)` is `String(crc32(utf8(s)))` and `matches(query, path)` is
      `new Minimatch(query).match(path)`. Nothing here assumes CRC32 is
      injective. */
  datatype Oracles = Oracles(crc: string -> string, matches: (string, string) -> bool)

  /** A query made of literal characters only: minimatch then matches the
      query itself and nothing else. This is an assumption about minimatch,
      required only where a point tag must agree with the manifest. */
  ghost predicate LiteralQuery(o: Oracles, q: string) {
    forall p :: o.matches(q, p) <==> p == q
  }

  /** One `{ path, etag }` yielded by `matchingManifestEntries`. */
  datatype Entry = Entry(path: string, etag: string)

  /** `matchingManifestEntries`: the entries whose path the query matches,
      in the order of `files`. */
  function MatchingEntries(o: Oracles, files: seq<(string, string)>, q: string): (r: seq<Entry>)
    ensures |r| <= |files|
    ensures forall k :: 0 <= k < |r| ==> (r[k].path, r[k].etag) in files && o.matches(q, r[k].path)
    ensures forall i :: 0 <= i < |files| && o.matches(q, files[i].0) ==> Entry(files[i].0, files[i].1) in r
  {
    if |files| == 0 then []
    else
      var rest := MatchingEntries(o, files[1..], q);
      if o.matches(q, files[0].0) then [Entry(files[0].0, files[0].1)] + rest else rest
  }

  /** Matching a table extended at the end extends the matches at the end:
      the matches keep the manifest's order. */
  lemma {:induction false} MatchingEntriesAppend(o: Oracles, files: seq<(string, string)>, f: (string, string), q: string)
    ensures MatchingEntries(o, files + [f], q)
         == MatchingEntries(o, files, q) + (if o.matches(q, f.0) then [Entry(f.0, f.1)] else [])
  {
    if |files| > 0 {
      assert (files + [f])[1..] == files[1..] + [f];
      MatchingEntriesAppend(o, files[1..], f, q);
    } else {
      assert (files + [f])[1..] == [];
    }
  }

  /** The paths of a list of entries, in order. */
  function Paths(es: seq<Entry>): (r: seq<string>)
    ensures |r| == |es|
    ensures forall k :: 0 <= k < |es| ==> r[k] == es[k].path
  {
    if |es| == 0 then [] else [es[0].path] + Paths(es[1..])
  }

  /** A streaming `Crc32` object, represented by the characters fed to it so far. */
  datatype Crc32 = Crc32(fed: string) {
    /** `hash.update(encoder.encode(s))`. */
    function Update(s: string): Crc32 {
      Crc32(fed + s)
    }
    /** `String(hash.digest())`. */
    function Digest(o: Oracles): string {
      o.crc(fed)
    }
  }

  /** The fresh hasher, `new Crc32()`. */
  const EmptyHash := Crc32("")

  /** Feeds each entry's path and then its etag to the hasher, in order. */
  function Feed(h: Crc32, es: seq<Entry>): Crc32
    decreases |es|
  {
    if |es| == 0 then h else Feed(h.Update(es[0].path).Update(es[0].etag), es[1..])
  }

  /** The characters of the entries laid end to end: path, etag, path, etag, ... */
  function Concat(es: seq<Entry>): string {
    if |es| == 0 then "" else es[0].path + es[0].etag + Concat(es[1..])
  }

  /** Streaming updates compose: feeding the entries one by one equals one
      digest over their concatenation. */
  lemma {:induction false} FeedIsConcat(h: Crc32, es: seq<Entry>)
    ensures Feed(h, es).fed == h.fed + Concat(es)
    decreases |es|
  {
    if |es| > 0 {
      FeedIsConcat(h.Update(es[0].path).Update(es[0].etag), es[1..]);
    }
  }

  /** `cacheTagFor(manifest, query)`: the digest of every matching
      (path, etag) pair, in manifest order. */
  function CacheTagFor(o: Oracles, m: Manifest, q: string): (r: string)
    ensures r == o.crc(Concat(MatchingEntries(o, m.files, q)))
  {
    FeedIsConcat(EmptyHash, MatchingEntries(o, m.files, q));
    assert EmptyHash.fed + Concat(MatchingEntries(o, m.files, q)) == Concat(MatchingEntries(o, m.files, q));
    Feed(EmptyHash, MatchingEntries(o, m.files, q)).Digest(o)
  }

  /** A query no manifest path matches has the digest of nothing at all;
      this is the tag a 404 records. */
  lemma NoMatchIsEmptyDigest(o: Oracles, m: Manifest, q: string)
    requires forall i :: 0 <= i < |m.files| ==> !o.matches(q, m.files[i].0)
    ensures CacheTagFor(o, m, q) == EmptyHash.Digest(o)
  {
    NoMatchNoEntries(o, m.files, q);
  }

  lemma {:induction false} NoMatchNoEntries(o: Oracles, files: seq<(string, string)>, q: string)
    requires forall i :: 0 <= i < |files| ==> !o.matches(q, files[i].0)
    ensures MatchingEntries(o, files, q) == []
  {
    if |files| > 0 {
      assert !o.matches(q, files[0].0);
      assert forall i :: 0 <= i < |files[1..]| ==> files[1..][i] == files[i + 1];
      NoMatchNoEntries(o, files[1..], q);
    }
  }

  /** Under the literal-query assumption, with distinct paths, a path in the
      manifest is its own only match and an absent path matches nothing. */
  lemma {:induction false} LiteralMatches(o: Oracles, files: seq<(string, string)>, q: string)
    requires LiteralQuery(o, q)
    requires forall i, j :: 0 <= i < j < |files| ==> files[i].0 != files[j].0
    ensures forall i :: 0 <= i < |files| && files[i].0 == q ==> MatchingEntries(o, files, q) == [Entry(q, files[i].1)]
    ensures (forall i :: 0 <= i < |files| ==> files[i].0 != q) ==> MatchingEntries(o, files, q) == []
  {
    if |files| > 0 {
      LiteralMatches(o, files[1..], q);
      assert o.matches(q, files[0].0) <==> files[0].0 == q;
      if files[0].0 == q {
        assert forall i :: 0 <= i < |files[1..]| ==> files[1..][i].0 != q by {
          forall i | 0 <= i < |files[1..]| ensures files[1..][i].0 != q {
            assert files[1..][i] == files[i + 1];
          }
        }
      } else {
        forall i | 0 <= i < |files| && files[i].0 == q
          ensures MatchingEntries(o, files, q) == [Entry(q, files[i].1)]
        {
          assert files[1..][i - 1] == files[i];
        }
        if forall i :: 0 <= i < |files| ==> files[i].0 != q {
          assert forall i :: 0 <= i < |files[1..]| ==> files[1..][i].0 != q by {
            forall i | 0 <= i < |files[1..]| ensures files[1..][i].0 != q {
              assert files[1..][i] == files[i + 1];
            }
          }
        }
      }
    }
  }
}
