/** `Crawler.listPackages` and `Crawler.dependencyNames` of
    worker/src/package-info.ts: a stable ordering of the crawled packages. */
module PackageOrder {
  import opened Wrappers

  /** The two sections of a package.json that name dependencies, as their
      `Object.keys` in order; `None` when the section is missing. */
  datatype PackageJson = PackageJson(dependencies: Option<seq<string>>, devDependencies: Option<seq<string>>)

  /** A crawled package: its package.json, base URL, whether it is the top
      package (the only one whose devDependencies count) and the URL of the
      package.json each dependency name resolved to. */
  datatype PackageInfo = PackageInfo(json: PackageJson, url: string, isTopPackage: bool, resolutions: map<string, string>)

  /** `Crawler.packages`, a `Map` keyed by package.json URL: its keys in
      insertion order and its entries. */
  datatype Packages = Packages(order: seq<string>, info: map<string, PackageInfo>)

  /** The insertion order lists each key of the map exactly once. */
  ghost predicate WellFormed(p: Packages) {
    && (forall i, j :: 0 <= i < j < |p.order| ==> p.order[i] != p.order[j])
    && (forall k :: k in p.info <==> k in p.order)
  }

  predicate Distinct(s: seq<string>) {
    forall i, j :: 0 <= i < j < |s| ==> s[i] != s[j]
  }

  /** Adds each name to a `Set` in order: names already present keep their
      first position. */
  function AddAll(acc: seq<string>, names: seq<string>): seq<string>
    decreases |names|
  {
    if |names| == 0 then acc
    else if names[0] in acc then AddAll(acc, names[1..])
    else AddAll(acc + [names[0]], names[1..])
  }

  /** `AddAll` keeps what it had, adds every new name once, and appends the
      names as they are when they are all new and distinct. */
  lemma {:induction false} AddAllFacts(acc: seq<string>, names: seq<string>)
    ensures acc <= AddAll(acc, names)
    ensures forall x :: x in AddAll(acc, names) <==> x in acc || x in names
    ensures Distinct(acc) ==> Distinct(AddAll(acc, names))
    ensures Distinct(acc + names) ==> AddAll(acc, names) == acc + names
    decreases |names|
  {
    if |names| > 0 {
      if names[0] in acc {
        AddAllFacts(acc, names[1..]);
        assert !Distinct(acc + names) by {
          var i :| 0 <= i < |acc| && acc[i] == names[0];
          assert (acc + names)[i] == (acc + names)[|acc|];
        }
      } else {
        AddAllFacts(acc + [names[0]], names[1..]);
        assert acc + names == (acc + [names[0]]) + names[1..];
        if Distinct(acc) {
          assert Distinct(acc + [names[0]]);
        }
        if Distinct(acc + names) {
          assert Distinct(acc + [names[0]] + names[1..]);
        }
      }
    }
  }

  /** `dependencyNames(pkg)`: the dependencies' names, then — for the top
      package only — the devDependencies' names. */
  function DependencyNames(pkg: PackageInfo): seq<string> {
    var deps := AddAll([], pkg.json.dependencies.GetOr([]));
    if pkg.isTopPackage then AddAll(deps, pkg.json.devDependencies.GetOr([])) else deps
  }

  /** Each name once; exactly the dependencies' names plus, for the top
      package only, the devDependencies' names; and the dependencies come
      first, in their own order. */
  lemma DependencyNamesFacts(pkg: PackageInfo)
    ensures Distinct(DependencyNames(pkg))
    ensures forall x :: x in DependencyNames(pkg) <==>
      || x in pkg.json.dependencies.GetOr([])
      || (pkg.isTopPackage && x in pkg.json.devDependencies.GetOr([]))
    ensures Distinct(pkg.json.dependencies.GetOr([])) ==>
              pkg.json.dependencies.GetOr([]) <= DependencyNames(pkg)
  {
    var ds := pkg.json.dependencies.GetOr([]);
    AddAllFacts([], ds);
    assert [] + ds == ds;
    if pkg.isTopPackage {
      AddAllFacts(AddAll([], ds), pkg.json.devDependencies.GetOr([]));
    }
  }

  /** The URLs pushed for a package: the non-empty resolution of each
      dependency name, in name order; names without one are skipped. */
  function ChildrenOf(pkg: PackageInfo, names: seq<string>): (r: seq<string>)
    ensures forall k :: 0 <= k < |r| ==> r[k] != ""
  {
    if |names| == 0 then []
    else
      var rest := ChildrenOf(pkg, names[1..]);
      if names[0] in pkg.resolutions && pkg.resolutions[names[0]] != "" then [pkg.resolutions[names[0]]] + rest
      else rest
  }

  /** Only resolutions of the given names are followed, and every non-empty
      one is. */
  lemma {:induction false} ChildrenAreResolutions(pkg: PackageInfo, names: seq<string>)
    ensures forall u :: u in ChildrenOf(pkg, names) <==>
      exists k :: 0 <= k < |names| && names[k] in pkg.resolutions && pkg.resolutions[names[k]] == u && u != ""
  {
    if |names| > 0 {
      ChildrenAreResolutions(pkg, names[1..]);
      assert forall k :: 0 <= k < |names[1..]| ==> names[1..][k] == names[k + 1];
    }
  }

  function Children(pkg: PackageInfo): seq<string> {
    ChildrenOf(pkg, DependencyNames(pkg))
  }

  /** The `while (true)` loop: `queue.shift()` the next URL, stop when it is
      missing or empty; output each known package the first time it comes
      up and push its children at the back. Output identity is by URL, since
      the crawl creates one `PackageInfo` object per URL; `visited` is the
      set of URLs in `out`. */
  function Loop(p: Packages, queue: seq<string>, visited: set<string>, out: seq<string>): seq<string>
    decreases |p.info.Keys - visited|, |queue|
  {
    if |queue| == 0 || queue[0] == "" then out
    else
      var url := queue[0];
      if url in p.info && url !in visited then
        assert p.info.Keys - (visited + {url}) == (p.info.Keys - visited) - {url};
        Loop(p, queue[1..] + Children(p.info[url]), visited + {url}, out + [url])
      else Loop(p, queue[1..], visited, out)
  }

  /** The URLs `listPackages` outputs, starting from the first key inserted. */
  function ListUrls(p: Packages): seq<string> {
    if |p.order| == 0 then [] else Loop(p, [p.order[0]], {}, [])
  }

  /** `listPackages()`. */
  function ListPackages(p: Packages): (r: seq<PackageInfo>)
    requires WellFormed(p)
    ensures |p.order| == 0 ==> r == []
    ensures |p.order| > 0 && p.order[0] != "" ==> |r| > 0 && r[0] == p.info[p.order[0]]
    ensures forall i :: 0 <= i < |r| ==> r[i] in p.info.Values
    ensures exists urls :: ReachOrder(p, urls) && |urls| == |r| &&
              forall i :: 0 <= i < |r| ==> urls[i] in p.info && r[i] == p.info[urls[i]]
  {
    ListPackagesFacts(p);
    var urls := ListUrls(p);
    var r := seq(|urls|, i requires 0 <= i < |urls| => p.info[urls[i]]);
    assert ReachOrder(p, urls);
    r
  }

  /** `urls` names each package once, starts from the first inserted one, and
      every later one was reached as a resolved dependency of an earlier one. */
  ghost predicate ReachOrder(p: Packages, urls: seq<string>) {
    && Distinct(urls)
    && (|urls| > 0 ==> |p.order| > 0 && urls[0] == p.order[0])
    && OutputReached(p, urls)
  }

  /** `u` is the child of a package output before position `before`. */
  predicate ChildOfEarlier(p: Packages, out: seq<string>, u: string, before: int) {
    exists j :: 0 <= j < before && j < |out| && out[j] in p.info && u in Children(p.info[out[j]])
  }

  /** Appending a new name keeps a list duplicate-free. */
  lemma DistinctAppend(s: seq<string>, x: string)
    requires Distinct(s) && x !in s
    ensures Distinct(s + [x])
  {
    var s' := s + [x];
    forall i, j | 0 <= i < j < |s'| ensures s'[i] != s'[j] {
      if j == |s| {
        assert s'[i] == s[i];
      }
    }
  }

  /** The loop outputs known URLs, each once, and keeps what it had. */
  lemma {:induction false} LoopOutputsKnownOnce(p: Packages, queue: seq<string>, visited: set<string>, out: seq<string>)
    requires forall x :: x in visited <==> x in out
    requires Distinct(out) && forall i :: 0 <= i < |out| ==> out[i] in p.info
    ensures var r := Loop(p, queue, visited, out);
      out <= r && Distinct(r) && (forall i :: 0 <= i < |r| ==> r[i] in p.info)
    decreases |p.info.Keys - visited|, |queue|
  {
    if |queue| > 0 && queue[0] != "" {
      var url := queue[0];
      if url in p.info && url !in visited {
        assert p.info.Keys - (visited + {url}) == (p.info.Keys - visited) - {url};
        var out' := out + [url];
        DistinctAppend(out, url);
        assert forall x :: x in visited + {url} <==> x in out';
        assert forall i :: 0 <= i < |out'| ==> out'[i] in p.info;
        LoopOutputsKnownOnce(p, queue[1..] + Children(p.info[url]), visited + {url}, out');
      } else {
        LoopOutputsKnownOnce(p, queue[1..], visited, out);
      }
    }
  }

  /** Every queued URL was pushed by a package already output. */
  ghost predicate QueueReached(p: Packages, queue: seq<string>, out: seq<string>) {
    forall k :: 0 <= k < |queue| ==> ChildOfEarlier(p, out, queue[k], |out|)
  }

  /** Every output URL but the first was pushed by an earlier output. */
  ghost predicate OutputReached(p: Packages, out: seq<string>) {
    forall i :: 1 <= i < |out| ==> ChildOfEarlier(p, out, out[i], i)
  }

  /** Outputting the head of the queue and pushing its children keeps both
      reachability facts. */
  lemma OutputStep(p: Packages, queue: seq<string>, out: seq<string>)
    requires |queue| > 0 && queue[0] in p.info
    requires OutputReached(p, out)
    requires |out| > 0 ==> QueueReached(p, queue, out)
    requires |out| == 0 ==> |queue| == 1
    ensures OutputReached(p, out + [queue[0]])
    ensures QueueReached(p, queue[1..] + Children(p.info[queue[0]]), out + [queue[0]])
  {
    var out' := out + [queue[0]];
    var queue' := queue[1..] + Children(p.info[queue[0]]);
    forall i | 1 <= i < |out'| ensures ChildOfEarlier(p, out', out'[i], i) {
      if i < |out| {
        var j :| 0 <= j < i && j < |out| && out[j] in p.info && out[i] in Children(p.info[out[j]]);
        assert out'[j] == out[j];
      } else {
        assert ChildOfEarlier(p, out, queue[0], |out|);
        var j :| 0 <= j < |out| && out[j] in p.info && queue[0] in Children(p.info[out[j]]);
        assert out'[j] == out[j];
      }
    }
    forall k | 0 <= k < |queue'| ensures ChildOfEarlier(p, out', queue'[k], |out'|) {
      if k < |queue| - 1 {
        assert queue'[k] == queue[k + 1];
        assert ChildOfEarlier(p, out, queue[k + 1], |out|);
        var j :| 0 <= j < |out| && out[j] in p.info && queue[k + 1] in Children(p.info[out[j]]);
        assert out'[j] == out[j];
      } else {
        assert queue'[k] in Children(p.info[out'[|out|]]);
      }
    }
  }

  /** Every output but the first was reached as a child of an earlier one. */
  lemma {:induction false} LoopOutputsReached(p: Packages, queue: seq<string>, visited: set<string>, out: seq<string>)
    requires OutputReached(p, out)
    requires |out| > 0 ==> QueueReached(p, queue, out)
    requires |out| == 0 ==> |queue| <= 1
    ensures OutputReached(p, Loop(p, queue, visited, out))
    decreases |p.info.Keys - visited|, |queue|
  {
    if |queue| > 0 && queue[0] != "" {
      var url := queue[0];
      if url in p.info && url !in visited {
        assert p.info.Keys - (visited + {url}) == (p.info.Keys - visited) - {url};
        OutputStep(p, queue, out);
        LoopOutputsReached(p, queue[1..] + Children(p.info[url]), visited + {url}, out + [url]);
      } else {
        if |out| > 0 {
          assert QueueReached(p, queue[1..], out) by {
            forall k | 0 <= k < |queue[1..]| ensures ChildOfEarlier(p, out, queue[1..][k], |out|) {
              assert queue[1..][k] == queue[k + 1];
              assert ChildOfEarlier(p, out, queue[k + 1], |out|);
            }
          }
        }
        LoopOutputsReached(p, queue[1..], visited, out);
      }
    }
  }

  /** `listPackages` outputs each known package once, starting with the first
      inserted package, and every later package was reached as a resolved
      dependency of one output before it. An empty map gives an empty list. */
  lemma ListPackagesFacts(p: Packages)
    requires WellFormed(p)
    ensures var r := ListUrls(p);
      && (|p.order| == 0 ==> r == [])
      && Distinct(r) && (forall i :: 0 <= i < |r| ==> r[i] in p.info)
      && (|p.order| > 0 && p.order[0] != "" ==> |r| > 0 && r[0] == p.order[0])
      && (forall i :: 1 <= i < |r| ==> ChildOfEarlier(p, r, r[i], i))
  {
    if |p.order| > 0 {
      var root := p.order[0];
      LoopOutputsKnownOnce(p, [root], {}, []);
      LoopOutputsReached(p, [root], {}, []);
      if root != "" {
        assert root in p.info;
        var cs := Children(p.info[root]);
        assert {} + {root} == {root} && [] + [root] == [root];
        assert Loop(p, [root], {}, []) == Loop(p, [root][1..] + cs, {root}, [root]);
        LoopExtends(p, [root][1..] + cs, {root}, [root]);
      }
    }
  }

  /** The URLs of `queue` that the loop outputs when it reaches them, in order:
      known ones not yet visited, each the first time. */
  function FirstVisits(p: Packages, queue: seq<string>, visited: set<string>): seq<string>
    decreases |queue|
  {
    if |queue| == 0 then []
    else if queue[0] in p.info && queue[0] !in visited then [queue[0]] + FirstVisits(p, queue[1..], visited + {queue[0]})
    else FirstVisits(p, queue[1..], visited)
  }

  /** The loop only ever appends to its output. */
  lemma {:induction false} LoopExtends(p: Packages, queue: seq<string>, visited: set<string>, out: seq<string>)
    ensures out <= Loop(p, queue, visited, out)
    decreases |p.info.Keys - visited|, |queue|
  {
    if |queue| > 0 && queue[0] != "" {
      var url := queue[0];
      if url in p.info && url !in visited {
        assert p.info.Keys - (visited + {url}) == (p.info.Keys - visited) - {url};
        LoopExtends(p, queue[1..] + Children(p.info[url]), visited + {url}, out + [url]);
      } else {
        LoopExtends(p, queue[1..], visited, out);
      }
    }
  }

  /** First in, first out: everything already queued is output before
      anything pushed later, however much is pushed meanwhile. */
  lemma {:induction false} QueueIsFifo(p: Packages, q: seq<string>, rest: seq<string>, visited: set<string>, out: seq<string>)
    requires forall k :: 0 <= k < |q| ==> q[k] != ""
    ensures out + FirstVisits(p, q, visited) <= Loop(p, q + rest, visited, out)
    decreases |q|
  {
    if |q| == 0 {
      assert q + rest == rest;
      LoopExtends(p, rest, visited, out);
    } else {
      var url := q[0];
      assert (q + rest)[0] == url;
      assert (q + rest)[1..] == q[1..] + rest;
      if url in p.info && url !in visited {
        assert p.info.Keys - (visited + {url}) == (p.info.Keys - visited) - {url};
        assert (q + rest)[1..] + Children(p.info[url]) == q[1..] + (rest + Children(p.info[url]));
        QueueIsFifo(p, q[1..], rest + Children(p.info[url]), visited + {url}, out + [url]);
        assert out + FirstVisits(p, q, visited) == (out + [url]) + FirstVisits(p, q[1..], visited + {url});
      } else {
        QueueIsFifo(p, q[1..], rest, visited, out);
      }
    }
  }

  /** Breadth first: right after the first package come its own resolved
      dependencies (known, each once), before any of theirs. */
  lemma BreadthFirst(p: Packages)
    requires WellFormed(p)
    requires |p.order| > 0 && p.order[0] != ""
    ensures var root := p.order[0];
      [root] + FirstVisits(p, Children(p.info[root]), {root}) <= ListUrls(p)
  {
    var root := p.order[0];
    assert root in p.info;
    var cs := Children(p.info[root]);
    assert p.info.Keys - {root} == (p.info.Keys - {}) - {root};
    assert {} + {root} == {root} && [] + [root] == [root];
    assert Loop(p, [root], {}, []) == Loop(p, [root][1..] + cs, {root}, [root]);
    assert [root][1..] + cs == cs + [];
    QueueIsFifo(p, cs, [], {root}, [root]);
  }
}
