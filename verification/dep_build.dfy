/** The entrypoint bookkeeping of deps/build.ts: `Crawler.resolve` discovers
    which subpaths of which packages are imported, and `Crawler.run` rebuilds
    every package that gained an entrypoint until none is left. */
module DepBuild {
  import opened Wrappers
  import opened Text

  /** The fields of a package.json the crawler reads. */
  datatype PackageJson = PackageJson(name: Option<string>, version: string)

  /** `PackageInfo`: exterior subpath to interior subpath, the manifest, the
      package name and its directory. */
  datatype PackageInfo = PackageInfo(entrypoints: map<string, string>, pkg: PackageJson, name: string, dir: string)

  /** The crawler's state: packages by the path of their package.json, and
      the packages awaiting a build in insertion order (a `Set` of the
      `PackageInfo` objects, each of which belongs to one path). */
  datatype Crawler = Crawler(packages: map<string, PackageInfo>, needsBuild: seq<string>)

  /** A resolution handed back to rollup. */
  datatype Resolution = Resolution(id: string, isExternal: bool)

  /** The node resolver, `pkg-up`, `require` of a package.json, `path` and the
      resolve calls rollup makes while building a package; none of them is
      interpreted here. A resolver or `pkg-up` answer of `""` is as falsy as
      none. */
  datatype Env = Env(
    externals: set<string>,
    resolveId: (string, Option<string>) -> Option<string>,
    pkgUp: string -> Option<string>,
    readPackage: string -> Result<PackageJson, string>,
    dirname: string -> string,
    relative: (string, string) -> string,
    buildCalls: PackageInfo -> seq<(string, Option<string>)>)

  /** The result `resolve` settles with, and the crawler afterwards (the
      crawler keeps whatever was recorded before a throw). */
  datatype ResolveOutcome = ResolveOutcome(result: Result<Option<Resolution>, string>, crawler: Crawler)

  /** The external modules: every module of the RFC 176 mappings, plus
      `@glimmer/env` and `ember`. */
  function Externals(rfc176: seq<string>): (r: set<string>)
    ensures forall t :: t in r <==> t in rfc176 || t == "@glimmer/env" || t == "ember"
  {
    (set k | 0 <= k < |rfc176| :: rfc176[k]) + {"@glimmer/env", "ember"}
  }

  /** Every package awaiting a build is known, and none awaits twice. */
  predicate Valid(c: Crawler) {
    && (forall k :: 0 <= k < |c.needsBuild| ==> c.needsBuild[k] in c.packages)
    && (forall i, j :: 0 <= i < j < |c.needsBuild| ==> c.needsBuild[i] != c.needsBuild[j])
  }

  /** `Set.add`: a package already waiting keeps its place. */
  function AddOnce(s: seq<string>, p: string): (r: seq<string>)
    ensures p in r
    ensures p in s ==> r == s
    ensures p !in s ==> r == s + [p]
  {
    if p in s then s else s + [p]
  }

  /** `ensureName(pkg, pkgPath)`: throws exactly when the name is missing or empty. */
  function EnsureName(pkg: PackageJson, pkgPath: string): (r: Result<string, string>)
    ensures r.Failure? <==> pkg.name.None? || pkg.name.value == ""
    ensures r.Success? ==> r.value == pkg.name.value
  {
    match pkg.name
    case Some(n) => if n != "" then Success(n) else Failure("package at " + pkgPath + " has no name")
    case None => Failure("package at " + pkgPath + " has no name")
  }

  /** A value the source treats as truthy. */
  predicate Truthy(v: Option<string>) {
    v.Some? && v.value != ""
  }

  /** `this.packages.get(pkgPath)`, creating and recording the entry when
      it is new; a failing `require` or `ensureName` records nothing. */
  function LookupPackage(env: Env, c: Crawler, pkgPath: string): (r: Result<(Crawler, PackageInfo), string>)
    ensures pkgPath in c.packages ==> r == Success((c, c.packages[pkgPath]))
    ensures pkgPath !in c.packages && r.Success? ==>
              && env.readPackage(pkgPath).Success?
              && EnsureName(env.readPackage(pkgPath).value, pkgPath).Success?
              && r.value.1 == PackageInfo(map[], env.readPackage(pkgPath).value,
                                          EnsureName(env.readPackage(pkgPath).value, pkgPath).value, env.dirname(pkgPath))
              && r.value.0 == c.(packages := c.packages[pkgPath := r.value.1])
              && r.value.1.name == env.readPackage(pkgPath).value.name.value && r.value.1.name != ""
    ensures pkgPath !in c.packages ==>
              (r.Failure? <==> env.readPackage(pkgPath).Failure?
                               || EnsureName(env.readPackage(pkgPath).value, pkgPath).Failure?)
  {
    if pkgPath in c.packages then Success((c, c.packages[pkgPath]))
    else
      match env.readPackage(pkgPath)
      case Failure(e) => Failure(e)
      case Success(pkg) =>
        match EnsureName(pkg, pkgPath)
        case Failure(e) => Failure(e)
        case Success(name) =>
          var info := PackageInfo(map[], pkg, name, env.dirname(pkgPath));
          Success((c.(packages := c.packages[pkgPath := info]), info))
  }

  /** The exterior subpath of `target` inside a package called `name`. */
  function Exterior(target: string, name: string): string
    requires StartsWith(target, name)
  {
    "." + target[|name|..]
  }

  /** Recording `target` (resolved to file `id`) in the package found at
      `pkgPath`: a target outside the package's name throws; a known
      exterior subpath must map to the same interior subpath; a new one is
      recorded and queues the package for a build. */
  function Record(env: Env, c: Crawler, target: string, id: string, pkgPath: string, info: PackageInfo): (r: ResolveOutcome)
    requires pkgPath in c.packages && c.packages[pkgPath] == info
    ensures !StartsWith(target, info.name) ==> r.result.Failure? && r.crawler == c
    ensures StartsWith(target, info.name) ==>
              var exterior := Exterior(target, info.name);
              var interior := "./" + env.relative(info.dir, id);
              var known := exterior in info.entrypoints && info.entrypoints[exterior] != "";
              && (r.result.Success? <==> !known || info.entrypoints[exterior] == interior)
              && (r.result.Success? ==>
                    && r.result == Success(Some(Resolution(target, true)))
                    && r.crawler.packages == c.packages[pkgPath := info.(entrypoints := info.entrypoints[exterior := interior])])
              && (r.result.Failure? ==> r.crawler == c)
              && (known ==> r.crawler.needsBuild == c.needsBuild)
              && (!known ==> r.crawler.needsBuild == AddOnce(c.needsBuild, pkgPath))
  {
    if !StartsWith(target, info.name) then
      ResolveOutcome(Failure("didn't expect " + target + " to map inside " + info.name), c)
    else
      var exterior := Exterior(target, info.name);
      var interior := "./" + env.relative(info.dir, id);
      var prior := if exterior in info.entrypoints then Some(info.entrypoints[exterior]) else None;
      if Truthy(prior) then
        if prior.value != interior then
          ResolveOutcome(Failure("unpectedly resolved entrypoint " + exterior + " in " + info.name + " to " + interior
                               + " when we had previously seen it as " + prior.value), c)
        else
          assert info.entrypoints[exterior := interior] == info.entrypoints;
          assert c.packages[pkgPath := info] == c.packages;
          ResolveOutcome(Success(Some(Resolution(target, true))), c)
      else
        var info' := info.(entrypoints := info.entrypoints[exterior := interior]);
        ResolveOutcome(Success(Some(Resolution(target, true))),
                       Crawler(c.packages[pkgPath := info'], AddOnce(c.needsBuild, pkgPath)))
  }

  /** `resolve(target, requester)`. A target with NUL, or a relative or
      absolute one, is left to other resolvers; an external is marked
      external; anything else must resolve to a file inside a package with
      a name, whose entrypoints then record it. */
  function Resolve(env: Env, c: Crawler, target: string, requester: Option<string>): (r: ResolveOutcome)
    ensures '\0' in target ==> r == ResolveOutcome(Success(None), c)
    ensures ('\0' !in target && |target| > 0 && target[0] in {'.', '/'}) ==> r == ResolveOutcome(Success(None), c)
    ensures ('\0' !in target && !(|target| > 0 && target[0] in {'.', '/'}) && target in env.externals) ==>
              r == ResolveOutcome(Success(Some(Resolution(target, true))), c)
    ensures ('\0' !in target && !(|target| > 0 && target[0] in {'.', '/'}) && target !in env.externals
             && !Truthy(env.resolveId(target, requester))) ==>
              r.result.Failure? && r.crawler == c
    ensures r.result.Success? && r.result.value.Some? ==> r.result.value.value == Resolution(target, true)
  {
    if '\0' in target then ResolveOutcome(Success(None), c)
    else if |target| > 0 && target[0] in {'.', '/'} then ResolveOutcome(Success(None), c)
    else if target in env.externals then ResolveOutcome(Success(Some(Resolution(target, true))), c)
    else
      var resolved := env.resolveId(target, requester);
      if !Truthy(resolved) then ResolveOutcome(Failure("cannot resolve " + target + " from " + requester.GetOr("undefined")), c)
      else
        var id := resolved.value;
        var pkgPath := env.pkgUp(env.dirname(id));
        if !Truthy(pkgPath) then ResolveOutcome(Failure("missing package.json for " + id), c)
        else
          match LookupPackage(env, c, pkgPath.value)
          case Failure(e) => ResolveOutcome(Failure(e), c)
          case Success((c1, info)) => Record(env, c1, target, id, pkgPath.value, info)
  }

  /** The package `target` resolves into, when resolution gets that far. */
  function PackagePathOf(env: Env, target: string, requester: Option<string>): Option<string> {
    var resolved := env.resolveId(target, requester);
    if !Truthy(resolved) then None
    else
      var pkgPath := env.pkgUp(env.dirname(resolved.value));
      if Truthy(pkgPath) then pkgPath else None
  }

  /** State only grows: known packages stay, keeping their name and every
      recorded entrypoint, and the build queue only gains packages at its
      end. */
  predicate Grows(c: Crawler, c': Crawler) {
    && (forall p :: p in c.packages ==> p in c'.packages)
    && (forall p :: p in c.packages ==> c'.packages[p].name == c.packages[p].name)
    && (forall p, x :: p in c.packages && x in c.packages[p].entrypoints && c.packages[p].entrypoints[x] != "" ==>
          x in c'.packages[p].entrypoints && c'.packages[p].entrypoints[x] == c.packages[p].entrypoints[x])
  }

  lemma GrowsTransitive(a: Crawler, b: Crawler, c: Crawler)
    requires Grows(a, b) && Grows(b, c)
    ensures Grows(a, c)
  {
  }

  /** `resolve` keeps the crawler valid and only adds to it; the build queue
      keeps its order and gains at most the resolved package at its end. */
  lemma ResolveGrows(env: Env, c: Crawler, target: string, requester: Option<string>)
    requires Valid(c)
    ensures var r := Resolve(env, c, target, requester);
            && Valid(r.crawler) && Grows(c, r.crawler)
            && c.needsBuild <= r.crawler.needsBuild
            && |r.crawler.needsBuild| <= |c.needsBuild| + 1
  {
    var r := Resolve(env, c, target, requester);
    if r.crawler != c {
      var pkgPath := PackagePathOf(env, target, requester).value;
      var c1 := LookupPackage(env, c, pkgPath).value.0;
      assert Valid(c1);
    }
  }

  /** A target that is not yet an entrypoint of its package, once recorded,
      queues that package for a build. */
  lemma NewEntrypointQueuesBuild(env: Env, c: Crawler, target: string, requester: Option<string>)
    requires Resolve(env, c, target, requester).result.Success?
    requires PackagePathOf(env, target, requester).Some?
    requires Resolve(env, c, target, requester).crawler != c
    ensures PackagePathOf(env, target, requester).value in Resolve(env, c, target, requester).crawler.needsBuild
  {
  }

  /** Resolving the same target again changes nothing and gives the same
      answer: its exterior subpath is known with the same interior. */
  lemma ResolveIdempotent(env: Env, c: Crawler, target: string, requester: Option<string>)
    requires Resolve(env, c, target, requester).result.Success?
    ensures var r := Resolve(env, c, target, requester);
            Resolve(env, r.crawler, target, requester) == ResolveOutcome(r.result, r.crawler)
  {
  }

  /** Past the early exits, with `id` the file the target resolved to: no
      package.json above it, or one that cannot be read or has no name,
      throws and records nothing. */
  lemma ResolveNeedsPackage(env: Env, c: Crawler, target: string, requester: Option<string>, id: string)
    requires '\0' !in target && !(|target| > 0 && target[0] in {'.', '/'}) && target !in env.externals
    requires env.resolveId(target, requester) == Some(id) && id != ""
    ensures !Truthy(env.pkgUp(env.dirname(id))) ==>
              Resolve(env, c, target, requester) == ResolveOutcome(Failure("missing package.json for " + id), c)
    ensures Truthy(env.pkgUp(env.dirname(id))) && LookupPackage(env, c, env.pkgUp(env.dirname(id)).value).Failure? ==>
              Resolve(env, c, target, requester)
                == ResolveOutcome(Failure(LookupPackage(env, c, env.pkgUp(env.dirname(id)).value).error), c)
  {
  }

  /** Once the package at `pkgPath` is found (and, if new, recorded as
      `c1`): a target that does not start with the package's name throws; a
      new exterior subpath `'.' + remainder` is recorded as `'./'` plus the
      file's path relative to the package directory, and queues the package;
      a known one must already map there. */
  lemma ResolveRecordsEntrypoint(env: Env, c: Crawler, target: string, requester: Option<string>,
                                 id: string, pkgPath: string)
    requires '\0' !in target && !(|target| > 0 && target[0] in {'.', '/'}) && target !in env.externals
    requires env.resolveId(target, requester) == Some(id) && id != ""
    requires env.pkgUp(env.dirname(id)) == Some(pkgPath) && pkgPath != ""
    requires LookupPackage(env, c, pkgPath).Success?
    ensures var (c1, info) := LookupPackage(env, c, pkgPath).value;
            var r := Resolve(env, c, target, requester);
            && (!StartsWith(target, info.name) ==> r.result.Failure? && r.crawler == c1)
            && (StartsWith(target, info.name) ==>
                  var exterior := Exterior(target, info.name);
                  var interior := "./" + env.relative(info.dir, id);
                  && (r.result.Success? <==> !(exterior in info.entrypoints && info.entrypoints[exterior] != "")
                                             || info.entrypoints[exterior] == interior)
                  && (r.result.Success? ==>
                        && r.result == Success(Some(Resolution(target, true)))
                        && pkgPath in r.crawler.packages
                        && exterior in r.crawler.packages[pkgPath].entrypoints
                        && r.crawler.packages[pkgPath].entrypoints[exterior] == interior)
                  && (!(exterior in info.entrypoints && info.entrypoints[exterior] != "") ==>
                        pkgPath in r.crawler.needsBuild)
                  && (r.result.Failure? ==> r.crawler == c1))
  {
  }

  /** A known exterior subpath that resolves to a different interior one
      throws. */
  lemma ConflictingEntrypointThrows(env: Env, c: Crawler, target: string, requester: Option<string>,
                                    id: string, pkgPath: string)
    requires '\0' !in target && !(|target| > 0 && target[0] in {'.', '/'}) && target !in env.externals
    requires env.resolveId(target, requester) == Some(id) && id != ""
    requires env.pkgUp(env.dirname(id)) == Some(pkgPath) && pkgPath != ""
    requires pkgPath in c.packages && StartsWith(target, c.packages[pkgPath].name)
    requires var info := c.packages[pkgPath];
             var exterior := Exterior(target, info.name);
             exterior in info.entrypoints && info.entrypoints[exterior] != ""
             && info.entrypoints[exterior] != "./" + env.relative(info.dir, id)
    ensures Resolve(env, c, target, requester) == ResolveOutcome(Resolve(env, c, target, requester).result, c)
    ensures Resolve(env, c, target, requester).result.Failure?
  {
  }

  /** The resolve calls of one build, in order; the first throw fails the
      build and keeps what was recorded before it. */
  function ResolveAll(env: Env, c: Crawler, calls: seq<(string, Option<string>)>): (r: Result<Crawler, (string, Crawler)>)
    decreases |calls|
  {
    if |calls| == 0 then Success(c)
    else
      var step := Resolve(env, c, calls[0].0, calls[0].1);
      match step.result
      case Failure(e) => Failure((e, step.crawler))
      case Success(_) => ResolveAll(env, step.crawler, calls[1..])
  }

  /** The crawler a build leaves, whether or not it failed. */
  function After(r: Result<Crawler, (string, Crawler)>): Crawler {
    match r
    case Success(c) => c
    case Failure((_, c)) => c
  }

  /** A build, thrown or not, keeps the crawler valid, only adds to it and
      only appends to the build queue. */
  lemma {:induction false} ResolveAllGrows(env: Env, c: Crawler, calls: seq<(string, Option<string>)>)
    requires Valid(c)
    ensures Valid(After(ResolveAll(env, c, calls))) && Grows(c, After(ResolveAll(env, c, calls)))
    ensures c.needsBuild <= After(ResolveAll(env, c, calls)).needsBuild
    decreases |calls|
  {
    if |calls| > 0 {
      var step := Resolve(env, c, calls[0].0, calls[0].1);
      ResolveGrows(env, c, calls[0].0, calls[0].1);
      if step.result.Success? {
        ResolveAllGrows(env, step.crawler, calls[1..]);
        GrowsTransitive(c, step.crawler, After(ResolveAll(env, step.crawler, calls[1..])));
      }
    }
  }

  /** How `run()` ends: the queue drained, a build threw, or the bound on
      builds the model explores ran out. */
  datatype RunOutcome = Drained(crawler: Crawler) | Failed(error: string, crawler: Crawler) | Unfinished(crawler: Crawler)

  /** `run()`: take the first queued package, remove it, build it (which
      resolves more targets and may queue more packages, itself included),
      and repeat until the queue is empty. `fuel` bounds the number of
      builds explored, since `run` need not terminate. */
  function Run(env: Env, c: Crawler, fuel: nat): (r: RunOutcome)
    requires Valid(c)
    ensures r.Drained? ==> |r.crawler.needsBuild| == 0
    ensures |c.needsBuild| == 0 ==> r == Drained(c)
    decreases fuel
  {
    if |c.needsBuild| == 0 then Drained(c)
    else if fuel == 0 then Unfinished(c)
    else
      var p := c.needsBuild[0];
      var c1 := c.(needsBuild := c.needsBuild[1..]);
      DropHeadValid(c);
      var built := ResolveAll(env, c1, env.buildCalls(c.packages[p]));
      ResolveAllGrows(env, c1, env.buildCalls(c.packages[p]));
      match built
      case Failure((e, c2)) => Failed(e, c2)
      case Success(c2) => Run(env, c2, fuel - 1)
  }

  /** `run` never loses a package or an entrypoint and keeps every queued
      package known and queued once. */
  lemma {:induction false} RunGrows(env: Env, c: Crawler, fuel: nat)
    requires Valid(c)
    ensures Valid(Run(env, c, fuel).crawler) && Grows(c, Run(env, c, fuel).crawler)
    decreases fuel
  {
    if |c.needsBuild| > 0 && fuel > 0 {
      var p := c.needsBuild[0];
      var c1 := c.(needsBuild := c.needsBuild[1..]);
      DropHeadValid(c);
      var built := ResolveAll(env, c1, env.buildCalls(c.packages[p]));
      ResolveAllGrows(env, c1, env.buildCalls(c.packages[p]));
      if built.Success? {
        RunGrows(env, built.value, fuel - 1);
        GrowsTransitive(c, built.value, Run(env, built.value, fuel - 1).crawler);
      }
    }
  }

  /** Taking the first package off a valid queue leaves a valid crawler. */
  lemma DropHeadValid(c: Crawler)
    requires Valid(c) && |c.needsBuild| > 0
    ensures Valid(c.(needsBuild := c.needsBuild[1..]))
  {
    var c1 := c.(needsBuild := c.needsBuild[1..]);
    forall k | 0 <= k < |c1.needsBuild|
      ensures c1.needsBuild[k] in c1.packages
    {
      assert c1.needsBuild[k] == c.needsBuild[k + 1];
    }
  }

  /** One iteration of `run` removes exactly the first queued package: the
      queue the build leaves is the rest of the old queue followed by what
      the build queued, so the package built comes back only if the build
      queued it again, and a build that queues nothing leaves exactly the
      rest. A thrown build ends the run; otherwise the run continues from
      the queue the build left. */
  lemma RunRemovesHead(env: Env, c: Crawler, fuel: nat)
    requires Valid(c) && |c.needsBuild| > 0 && fuel > 0
    ensures var built := ResolveAll(env, c.(needsBuild := c.needsBuild[1..]), env.buildCalls(c.packages[c.needsBuild[0]]));
            && Valid(After(built)) && c.needsBuild[1..] <= After(built).needsBuild
            && (forall k :: 0 <= k < |c.needsBuild| - 1 ==> After(built).needsBuild[k] != c.needsBuild[0])
            && (|After(built).needsBuild| == |c.needsBuild| - 1 ==> After(built).needsBuild == c.needsBuild[1..])
            && (built.Failure? ==> Run(env, c, fuel) == Failed(built.error.0, built.error.1))
            && (built.Success? ==> Run(env, c, fuel) == Run(env, built.value, fuel - 1))
  {
    var c1 := c.(needsBuild := c.needsBuild[1..]);
    DropHeadValid(c);
    var built := ResolveAll(env, c1, env.buildCalls(c.packages[c.needsBuild[0]]));
    ResolveAllGrows(env, c1, env.buildCalls(c.packages[c.needsBuild[0]]));
    forall k | 0 <= k < |c.needsBuild| - 1
      ensures After(built).needsBuild[k] != c.needsBuild[0]
    {
      assert After(built).needsBuild[k] == c.needsBuild[k + 1];
    }
  }
}
