/** The specification service: it folds the extracted routes into an OpenAPI 3 document,
    follows relative imports from an entry file to fetch the files a parse needs, falls
    back to the entry file's own routes, and looks up a project's latest stored document.

    The parser result this service reads (`routes`, `mounts`, `imports`) is an oracle
    `scan`; the repository behind the file fetches is a map from path to source text. */
module SpecService {
  import opened Options
  import opened Strings
  import opened Paths
  import opened ExpressParser

  // ---------------------------------------------------------------------------
  // The OpenAPI document
  // ---------------------------------------------------------------------------

  /** An operation parameter; its schema type is always `string`. */
  datatype OpParam = OpParam(name: string, location: Location, required: bool, schemaType: string)

  datatype Operation = Operation(summary: string, parameters: seq<OpParam>, responses: map<string, string>)

  datatype Info = Info(title: string, version: string, description: string)

  datatype Document = Document(openapi: string, info: Info, paths: map<string, map<string, Operation>>)

  const OpenAPIVersion: string := "3.0.0"
  const InfoVersion: string := "1.0.0"
  const InfoDescription: string := "Generated by SpecOrbit with ts-morph parser"

  /** `project?.name || 'API Docs'`: a missing or empty project name gives the default. */
  function Title(projectName: Option<string>): (t: string)
    ensures projectName.Some? && projectName.value != "" ==> t == projectName.value
    ensures projectName.None? || projectName.value == "" ==> t == "API Docs"
  {
    if projectName.Some? && projectName.value != "" then projectName.value else "API Docs"
  }

  /** The key an operation is stored under: the route's method, lower-cased. */
  function MethodKey(r: ParsedRoute): string {
    ToLower(r.httpMethod)
  }

  function OpParamOf(p: Param): OpParam {
    OpParam(p.name, p.location, p.required, "string")
  }

  /** The operation written for one route; the captured responses are not used. */
  function OperationOf(r: ParsedRoute): Operation {
    Operation(
      if r.description != "" then r.description else r.httpMethod + " " + r.path,
      seq(|r.parameters|, i requires 0 <= i < |r.parameters| => OpParamOf(r.parameters[i])),
      map["200" := "Success"])
  }

  /** One iteration of the `forEach`: create the path entry when missing, then (over)write
      the operation of the route's method. Every other path and method is left as it was. */
  function AddRoute(paths: map<string, map<string, Operation>>, r: ParsedRoute): (q: map<string, map<string, Operation>>)
    ensures q.Keys == paths.Keys + {r.path}
    ensures q[r.path].Keys == (if r.path in paths then paths[r.path].Keys else {}) + {MethodKey(r)}
    ensures q[r.path][MethodKey(r)] == OperationOf(r)
    ensures forall p :: p in paths && p != r.path ==> q[p] == paths[p]
    ensures forall m :: r.path in paths && m in paths[r.path] && m != MethodKey(r) ==> q[r.path][m] == paths[r.path][m]
  {
    var entry := if r.path in paths then paths[r.path] else map[];
    paths[r.path := entry[MethodKey(r) := OperationOf(r)]]
  }

  /** The `paths` object after the `forEach` over `routes`. */
  function PathsOf(routes: seq<ParsedRoute>): map<string, map<string, Operation>> {
    if routes == [] then map[]
    else AddRoute(PathsOf(routes[..|routes| - 1]), routes[|routes| - 1])
  }

  /** `generateOpenAPIJson`: the `forEach` writing into the `paths` dictionary, then the
      document around it. */
  method GenerateOpenAPIJson(routes: seq<ParsedRoute>, title: string) returns (doc: Document)
    ensures doc == Document(OpenAPIVersion, Info(title, InfoVersion, InfoDescription), PathsOf(routes))
  {
    var paths: map<string, map<string, Operation>> := map[];
    var i := 0;
    while i < |routes|
      invariant 0 <= i <= |routes|
      invariant paths == PathsOf(routes[..i])
    {
      var route := routes[i];
      if route.path !in paths {
        paths := paths[route.path := map[]];
      }
      var operation := OperationOf(route);
      paths := paths[route.path := paths[route.path][MethodKey(route) := operation]];
      assert routes[..i + 1][..i] == routes[..i];
      i := i + 1;
    }
    assert routes[..i] == routes;
    doc := Document(OpenAPIVersion, Info(title, InfoVersion, InfoDescription), paths);
  }

  /** Every route's path is a key of `paths`, verbatim, and there is no key without a route. */
  lemma {:induction false} PathsKeys(routes: seq<ParsedRoute>)
    ensures forall p :: p in PathsOf(routes) <==> exists k :: 0 <= k < |routes| && routes[k].path == p
  {
    if routes != [] {
      var init := routes[..|routes| - 1];
      PathsKeys(init);
      forall p | p in PathsOf(routes)
        ensures exists k :: 0 <= k < |routes| && routes[k].path == p
      {
        if p != routes[|routes| - 1].path {
          assert p in PathsOf(init);
          var k :| 0 <= k < |init| && init[k].path == p;
          assert routes[k].path == p;
        }
      }
      forall p, k | 0 <= k < |routes| && routes[k].path == p
        ensures p in PathsOf(routes)
      {
        if k < |init| {
          assert init[k].path == p;
        }
      }
    }
  }

  /** Under a path there is an operation for exactly the lower-cased methods of the routes
      with that path. */
  lemma {:induction false} PathsMethods(routes: seq<ParsedRoute>, p: string, m: string)
    ensures p in PathsOf(routes) && m in PathsOf(routes)[p] <==>
      exists k :: 0 <= k < |routes| && routes[k].path == p && MethodKey(routes[k]) == m
  {
    if routes != [] {
      var init := routes[..|routes| - 1];
      var last := routes[|routes| - 1];
      PathsMethods(init, p, m);
      var before := PathsOf(init);
      assert PathsOf(routes) == AddRoute(before, last);
      assert p in PathsOf(routes) && m in PathsOf(routes)[p] <==>
        (p in before && m in before[p]) || (p == last.path && m == MethodKey(last));
      if exists k :: 0 <= k < |init| && init[k].path == p && MethodKey(init[k]) == m {
        var k :| 0 <= k < |init| && init[k].path == p && MethodKey(init[k]) == m;
        assert routes[k] == init[k];
      }
      if exists k :: 0 <= k < |routes| && routes[k].path == p && MethodKey(routes[k]) == m {
        var k :| 0 <= k < |routes| && routes[k].path == p && MethodKey(routes[k]) == m;
        if k < |init| {
          assert init[k] == routes[k];
        }
      }
    }
  }

  /** The last write wins: the operation stored under a route's path and method is the one
      built from the last route with that path and method. */
  lemma {:induction false} LastWriteWins(routes: seq<ParsedRoute>, k: nat)
    requires k < |routes|
    requires forall j :: k < j < |routes| ==>
      routes[j].path != routes[k].path || MethodKey(routes[j]) != MethodKey(routes[k])
    ensures routes[k].path in PathsOf(routes) && MethodKey(routes[k]) in PathsOf(routes)[routes[k].path]
    ensures PathsOf(routes)[routes[k].path][MethodKey(routes[k])] == OperationOf(routes[k])
  {
    if k < |routes| - 1 {
      var init := routes[..|routes| - 1];
      var last := routes[|routes| - 1];
      assert init[k] == routes[k];
      LastWriteWins(init, k);
      assert last.path != routes[k].path || MethodKey(last) != MethodKey(routes[k]);
    }
  }

  /** Each operation has the route's parameters, in order and with a `string` schema, the
      single response `200: Success`, and the route's description as its summary, or
      `"<METHOD> <path>"` when the description is empty. */
  lemma OperationShape(r: ParsedRoute)
    ensures |OperationOf(r).parameters| == |r.parameters|
    ensures forall i :: 0 <= i < |r.parameters| ==>
      var q := OperationOf(r).parameters[i];
      q.name == r.parameters[i].name && q.location == r.parameters[i].location &&
      q.required == r.parameters[i].required && q.schemaType == "string"
    ensures OperationOf(r).responses == map["200" := "Success"]
    ensures r.description != "" ==> OperationOf(r).summary == r.description
    ensures r.description == "" ==> OperationOf(r).summary == r.httpMethod + " " + r.path
  {
  }

  /** The captured responses play no part in the operation. */
  lemma OperationIgnoresResponses(r: ParsedRoute, responses: seq<Response>)
    ensures OperationOf(r.(responses := responses)) == OperationOf(r)
  {
  }

  // ---------------------------------------------------------------------------
  // The parser result read by this service
  // ---------------------------------------------------------------------------

  /** A router mount `app.use(path, variable)`. */
  datatype Mount = Mount(path: string, variableName: string)

  /** The record this service reads off a parse: routes, mounts and imported file paths. */
  datatype Scan = Scan(routes: seq<ParsedRoute>, mounts: seq<Mount>, imports: seq<string>)

  // ---------------------------------------------------------------------------
  // fallbackParsing
  // ---------------------------------------------------------------------------

  /** `fallbackParsing`: the entry file's routes, parsed as `app.ts`; mounts are only
      logged. `scan` gives `None` when the parse result has no readable fields, in which
      case spreading `routes` throws (the result here is `None`). */
  method FallbackParsing(entryCode: string, scan: (string, string) -> Option<Scan>) returns (routes: Option<seq<ParsedRoute>>)
    ensures scan(entryCode, "app.ts").None? ==> routes.None?
    ensures scan(entryCode, "app.ts").Some? ==> routes == Some(scan(entryCode, "app.ts").value.routes)
  {
    var mainParse := scan(entryCode, "app.ts");
    if mainParse.None? {
      return None;
    }
    var allRoutes: seq<ParsedRoute> := [];
    allRoutes := allRoutes + mainParse.value.routes;
    assert allRoutes == mainParse.value.routes;
    routes := Some(allRoutes);
  }

  // ---------------------------------------------------------------------------
  // The dependency worklist of setupTempDirectoryWithDependencies
  // ---------------------------------------------------------------------------

  /** Only imports starting with `.` are followed. */
  predicate IsRelative(imp: string) {
    StartsWith(imp, ".")
  }

  /** The file an import of `current` names: `dirname(current)` joined with the import,
      backslashes turned into slashes, `.ts` appended unless it ends in `.ts` or `.js`. */
  function ImportTarget(current: string, imp: string): (t: string)
    ensures EndsWith(t, ".ts") || EndsWith(t, ".js")
    ensures '\\' !in t
  {
    var joined := ReplaceChar(PathJoin(Dirname(current), imp), '\\', '/');
    if EndsWith(joined, ".ts") || EndsWith(joined, ".js") then joined else joined + ".ts"
  }

  /** The target is the import resolved against the importing file's directory: exactly
      that path when it already ends in `.ts` or `.js`, else that path with `.ts` added; a
      path without backslashes is kept as `path.join` gives it. */
  lemma ImportTargetJoin(current: string, imp: string)
    ensures var joined := PathJoin(Dirname(current), imp);
      var slashed := ReplaceChar(joined, '\\', '/');
      && ('\\' !in joined ==> slashed == joined)
      && (EndsWith(slashed, ".ts") || EndsWith(slashed, ".js") ==> ImportTarget(current, imp) == slashed)
      && (!EndsWith(slashed, ".ts") && !EndsWith(slashed, ".js") ==> ImportTarget(current, imp) == slashed + ".ts")
      && StartsWith(ImportTarget(current, imp), slashed)
  {
    var joined := PathJoin(Dirname(current), imp);
    var slashed := ReplaceChar(joined, '\\', '/');
    if '\\' !in joined {
      assert slashed == joined;
    }
    var t := ImportTarget(current, imp);
    assert t[..|slashed|] == slashed;
  }

  /** The files `current`'s relative imports name, in import order. */
  function Targets(current: string, imports: seq<string>): seq<string> {
    if imports == [] then []
    else
      var last := imports[|imports| - 1];
      Targets(current, imports[..|imports| - 1]) + (if IsRelative(last) then [ImportTarget(current, last)] else [])
  }

  /** A target is what a relative import names, and every relative import yields one;
      a non-relative import (a package) yields none. */
  lemma {:induction false} TargetsExactly(current: string, imports: seq<string>, t: string)
    ensures t in Targets(current, imports) <==>
      exists imp :: imp in imports && IsRelative(imp) && t == ImportTarget(current, imp)
  {
    if imports != [] {
      var init := imports[..|imports| - 1];
      var last := imports[|imports| - 1];
      TargetsExactly(current, init, t);
      assert imports == init + [last];
      assert Targets(current, imports) ==
        Targets(current, init) + (if IsRelative(last) then [ImportTarget(current, last)] else []);
      if exists imp :: imp in imports && IsRelative(imp) && t == ImportTarget(current, imp) {
        var imp :| imp in imports && IsRelative(imp) && t == ImportTarget(current, imp);
        if imp != last {
          assert imp in init;
        }
      }
    }
  }

  /** The imports read off a fetched file; none when reading them throws. */
  function ImportsOf(repo: map<string, string>, scan: (string, string) -> Option<Scan>, p: string): seq<string>
    requires p in repo
  {
    match scan(repo[p], p)
    case None => []
    case Some(s) => s.imports
  }

  function TargetsOf(repo: map<string, string>, scan: (string, string) -> Option<Scan>, p: string): seq<string>
    requires p in repo
  {
    Targets(p, ImportsOf(repo, scan, p))
  }

  /** Every file a fetched file imports is fetched too, unless it is not in the repository. */
  predicate Closed(fetched: set<string>, repo: map<string, string>, scan: (string, string) -> Option<Scan>)
    requires fetched <= repo.Keys
  {
    forall p, t :: p in fetched && t in TargetsOf(repo, scan, p) ==> t in fetched || t !in repo
  }

  predicate Distinct(s: seq<string>) {
    forall i, j :: 0 <= i < j < |s| ==> s[i] != s[j]
  }

  lemma RemoveOne(universe: set<string>, done: set<string>, x: string)
    requires x in universe && x !in done
    ensures |universe - (done + {x})| < |universe - done|
  {
    assert universe - done == (universe - (done + {x})) + {x};
  }

  /** The worklist loop of `setupTempDirectoryWithDependencies`. A fetch succeeds exactly
      for the paths of `repo`; a failed fetch, or a parse result whose imports cannot be
      read, is caught and the loop goes on. `attempts` lists every path fetched, in order.

      The loop ends; it fetches the entry path; every file it fetched has its imports
      fetched too unless they are missing from the repository; every attempt is the entry
      or an import of a file fetched by an earlier attempt, so only files the entry reaches
      through imports are attempted; and a path the repository holds is fetched at most
      once. */
  method FetchDependencies(entryPath: string, repo: map<string, string>, scan: (string, string) -> Option<Scan>)
    returns (fetched: set<string>, attempts: seq<string>)
    ensures fetched <= repo.Keys
    ensures |attempts| >= 1 && attempts[0] == entryPath
    ensures forall p :: p in fetched <==> p in attempts && p in repo
    ensures Closed(fetched, repo, scan)
    ensures forall k :: 0 <= k < |attempts| ==>
      attempts[k] == entryPath ||
      exists i :: 0 <= i < k && attempts[i] in fetched && attempts[k] in TargetsOf(repo, scan, attempts[i])
    ensures forall i, j :: 0 <= i < j < |attempts| && attempts[i] == attempts[j] ==> attempts[i] !in repo
    ensures forall k :: 0 <= k < |attempts| ==> Reaches(repo, scan, entryPath, attempts[k], k)
  {
    var toFetch: seq<string> := [entryPath];
    fetched := {};
    attempts := [];
    // for each waiting or attempted path other than the entry, the position in `attempts`
    // of the first fetched file seen importing it
    ghost var importer: map<string, nat> := map[];
    while |toFetch| > 0
      invariant fetched <= repo.Keys
      invariant Worklist(entryPath, repo, scan, toFetch, fetched, attempts, importer)
      decreases |repo.Keys - fetched|, |toFetch|
    {
      toFetch, fetched, attempts, importer := Visit(entryPath, repo, scan, toFetch, fetched, attempts, importer);
    }
    WorklistDone(entryPath, repo, scan, fetched, attempts, importer);
    AttemptsReachable(entryPath, repo, scan, fetched, attempts);
  }

  /** `t` is `entryPath`, or an import of a repository file that `entryPath` reaches, in
      at most `steps` imports. */
  ghost predicate Reaches(repo: map<string, string>, scan: (string, string) -> Option<Scan>,
                          entryPath: string, t: string, steps: nat)
    decreases steps
  {
    t == entryPath ||
    (steps > 0 && exists p :: p in repo && t in TargetsOf(repo, scan, p) && Reaches(repo, scan, entryPath, p, steps - 1))
  }

  /** Each attempt is the entry or an import of a file an earlier attempt fetched. */
  ghost predicate ImportedEarlier(entryPath: string, repo: map<string, string>, scan: (string, string) -> Option<Scan>,
                                  fetched: set<string>, attempts: seq<string>)
  {
    forall k {:trigger ImportedEarlierAt(entryPath, repo, scan, fetched, attempts, k)} :: 0 <= k < |attempts| ==>
      ImportedEarlierAt(entryPath, repo, scan, fetched, attempts, k)
  }

  /** The attempt at `k` is the entry or an import of a file an earlier attempt fetched. */
  ghost predicate ImportedEarlierAt(entryPath: string, repo: map<string, string>, scan: (string, string) -> Option<Scan>,
                                    fetched: set<string>, attempts: seq<string>, k: nat)
    requires k < |attempts|
  {
    attempts[k] == entryPath ||
    exists i :: 0 <= i < k && attempts[i] in fetched && attempts[i] in repo &&
      attempts[k] in TargetsOf(repo, scan, attempts[i])
  }

  /** Attempts each made on the entry or on an import of an earlier fetched file reach
      only files the entry reaches: the `k`-th within `k` imports. A file the entry does
      not reach, such as two files importing only each other, is never attempted. */
  lemma AttemptsReachable(entryPath: string, repo: map<string, string>, scan: (string, string) -> Option<Scan>,
                          fetched: set<string>, attempts: seq<string>)
    requires fetched <= repo.Keys
    requires forall k :: 0 <= k < |attempts| ==>
      attempts[k] == entryPath ||
      exists i :: 0 <= i < k && attempts[i] in fetched && attempts[k] in TargetsOf(repo, scan, attempts[i])
    ensures forall k :: 0 <= k < |attempts| ==> Reaches(repo, scan, entryPath, attempts[k], k)
  {
    forall k | 0 <= k < |attempts|
      ensures ImportedEarlierAt(entryPath, repo, scan, fetched, attempts, k)
    {
    }
    forall k | 0 <= k < |attempts|
      ensures Reaches(repo, scan, entryPath, attempts[k], k)
    {
      AttemptReachable(entryPath, repo, scan, fetched, attempts, k);
    }
  }

  lemma {:induction false} AttemptReachable(entryPath: string, repo: map<string, string>,
                                            scan: (string, string) -> Option<Scan>,
                                            fetched: set<string>, attempts: seq<string>, k: nat)
    requires ImportedEarlier(entryPath, repo, scan, fetched, attempts)
    requires k < |attempts|
    ensures Reaches(repo, scan, entryPath, attempts[k], k)
    decreases k
  {
    if attempts[k] != entryPath {
      var i := EarlierImporter(entryPath, repo, scan, fetched, attempts, k);
      AttemptReachable(entryPath, repo, scan, fetched, attempts, i);
      ReachesMore(repo, scan, entryPath, attempts[i], i, k - 1);
      ReachesStep(repo, scan, entryPath, attempts[i], attempts[k], k - 1);
    }
  }

  lemma EarlierImporter(entryPath: string, repo: map<string, string>, scan: (string, string) -> Option<Scan>,
                        fetched: set<string>, attempts: seq<string>, k: nat) returns (i: nat)
    requires ImportedEarlier(entryPath, repo, scan, fetched, attempts)
    requires k < |attempts| && attempts[k] != entryPath
    ensures i < k && attempts[i] in repo && attempts[k] in TargetsOf(repo, scan, attempts[i])
  {
    assert ImportedEarlierAt(entryPath, repo, scan, fetched, attempts, k);
    i :| 0 <= i < k && attempts[i] in fetched && attempts[i] in repo &&
      attempts[k] in TargetsOf(repo, scan, attempts[i]);
  }

  /** An import of a repository file reached within `n` imports is reached within `n + 1`. */
  lemma ReachesStep(repo: map<string, string>, scan: (string, string) -> Option<Scan>,
                    entryPath: string, p: string, t: string, n: nat)
    requires p in repo && t in TargetsOf(repo, scan, p) && Reaches(repo, scan, entryPath, p, n)
    ensures Reaches(repo, scan, entryPath, t, n + 1)
  {
  }

  /** Reaching within fewer imports is reaching within more. */
  lemma {:induction false} ReachesMore(repo: map<string, string>, scan: (string, string) -> Option<Scan>,
                                       entryPath: string, t: string, m: nat, n: nat)
    requires m <= n && Reaches(repo, scan, entryPath, t, m)
    ensures Reaches(repo, scan, entryPath, t, n)
    decreases m
  {
    if t != entryPath {
      var p :| p in repo && t in TargetsOf(repo, scan, p) && Reaches(repo, scan, entryPath, p, m - 1);
      ReachesMore(repo, scan, entryPath, p, m - 1, n - 1);
    }
  }

  /** Once nothing is waiting, the invariant gives the outcome promised by `FetchDependencies`. */
  lemma WorklistDone(entryPath: string, repo: map<string, string>, scan: (string, string) -> Option<Scan>,
                     fetched: set<string>, attempts: seq<string>, importer: map<string, nat>)
    requires fetched <= repo.Keys
    requires Worklist(entryPath, repo, scan, [], fetched, attempts, importer)
    ensures |attempts| >= 1 && attempts[0] == entryPath
    ensures Closed(fetched, repo, scan)
    ensures forall k :: 0 <= k < |attempts| ==>
      attempts[k] == entryPath ||
      exists i :: 0 <= i < k && attempts[i] in fetched && attempts[k] in TargetsOf(repo, scan, attempts[i])
  {
    forall p, t | p in fetched && t in TargetsOf(repo, scan, p)
      ensures t in fetched || t !in repo
    {
      assert t in Links(repo, scan, p);
    }
    forall k | 0 <= k < |attempts|
      ensures attempts[k] == entryPath ||
        exists i :: 0 <= i < k && attempts[i] in fetched && attempts[k] in TargetsOf(repo, scan, attempts[i])
    {
      if attempts[k] != entryPath {
        var i := ImporterAt(importer, attempts[k]);
        assert attempts[i] in fetched && attempts[k] in Links(repo, scan, attempts[i]);
      }
    }
  }

  /** One iteration of the worklist loop: take the first waiting path; skip it when it was
      fetched already; otherwise fetch it, and on success enqueue its imports. Either the
      set of fetched files grows or the list of waiting ones shrinks. */
  method Visit(entryPath: string, repo: map<string, string>, scan: (string, string) -> Option<Scan>,
               toFetch: seq<string>, fetched: set<string>, attempts: seq<string>, ghost importer: map<string, nat>)
    returns (toFetch': seq<string>, fetched': set<string>, attempts': seq<string>, ghost importer': map<string, nat>)
    requires |toFetch| > 0 && fetched <= repo.Keys
    requires Worklist(entryPath, repo, scan, toFetch, fetched, attempts, importer)
    ensures fetched' <= repo.Keys
    ensures Worklist(entryPath, repo, scan, toFetch', fetched', attempts', importer')
    ensures |repo.Keys - fetched'| < |repo.Keys - fetched| || (fetched' == fetched && |toFetch'| < |toFetch|)
  {
    var current := toFetch[0];
    if current in fetched {
      SkipKeeps(entryPath, repo, scan, toFetch, fetched, attempts, importer);
      return toFetch[1..], fetched, attempts, importer;
    }
    if current !in repo {
      // the fetch throws; the error is logged and the loop goes on
      FailureKeeps(entryPath, repo, scan, toFetch, fetched, attempts, importer);
      return toFetch[1..], fetched, attempts + [current], importer;
    }
    var code := repo[current];
    var parse := scan(code, current);
    var imports := if parse.Some? then parse.value.imports else [];
    assert Targets(current, imports) == Links(repo, scan, current);
    var queue := EnqueueImports(current, imports, fetched + {current}, toFetch[1..]);
    RemoveOne(repo.Keys, fetched, current);
    FetchKeeps(entryPath, repo, scan, toFetch, fetched, attempts, importer, queue);
    toFetch' := queue;
    fetched' := fetched + {current};
    attempts' := attempts + [current];
    importer' := Recorded(importer, Links(repo, scan, current), |attempts|);
  }

  /** The invariant of the worklist loop: `toFetch` is waiting, `fetched` holds the files
      fetched so far, `attempts` every fetch made, and `importer` records where each path
      met was first seen imported. */
  ghost predicate Worklist(entryPath: string, repo: map<string, string>, scan: (string, string) -> Option<Scan>,
                           toFetch: seq<string>, fetched: set<string>, attempts: seq<string>, importer: map<string, nat>)
  {
    Frontier(entryPath, repo, scan, toFetch, fetched, attempts) &&
    Provenance(entryPath, repo, scan, toFetch, fetched, attempts, importer)
  }

  /** The waiting paths hold no duplicate, the entry comes first, the fetched files are the
      attempts the repository holds, each import of a fetched file is fetched, waiting or
      missing, and no file of the repository was attempted twice. `Links` gives the files a
      path imports. */
  ghost predicate Frontier(entryPath: string, repo: map<string, string>, scan: (string, string) -> Option<Scan>,
                           toFetch: seq<string>, fetched: set<string>, attempts: seq<string>)
  {
    && Distinct(toFetch)
    && (attempts == [] ==> toFetch == [entryPath])
    && (attempts != [] ==> attempts[0] == entryPath)
    && (forall p :: p in fetched <==> p in attempts && p in repo)
    && (forall p, t :: p in fetched && t in Links(repo, scan, p) ==> t in fetched || t in toFetch || t !in repo)
    && (forall i, j :: 0 <= i < j < |attempts| && attempts[i] == attempts[j] ==> attempts[i] !in repo)
  }

  /** `importer` maps each path met, other than the entry, to the position in `attempts` of
      the first fetched file seen importing it; that position is earlier than every
      attempt of the path. */
  ghost predicate Provenance(entryPath: string, repo: map<string, string>, scan: (string, string) -> Option<Scan>,
                             toFetch: seq<string>, fetched: set<string>, attempts: seq<string>, importer: map<string, nat>)
  {
    && Recorders(repo, scan, fetched, attempts, importer)
    && (forall t :: t in toFetch ==> t == entryPath || t in importer)
    && RecordedEarlier(entryPath, attempts, importer)
  }

  /** Each recorded position is an attempt that fetched a file importing the path. */
  ghost predicate Recorders(repo: map<string, string>, scan: (string, string) -> Option<Scan>,
                            fetched: set<string>, attempts: seq<string>, importer: map<string, nat>)
  {
    forall t {:trigger ImporterAt(importer, t)} :: t in importer ==>
      && ImporterAt(importer, t) < |attempts|
      && attempts[ImporterAt(importer, t)] in fetched
      && t in Links(repo, scan, attempts[ImporterAt(importer, t)])
  }

  /** Each attempt but the entry's has a path recorded at an earlier position. */
  ghost predicate RecordedEarlier(entryPath: string, attempts: seq<string>, importer: map<string, nat>)
  {
    forall k :: 0 <= k < |attempts| ==> attempts[k] == entryPath || (attempts[k] in importer && importer[attempts[k]] < k)
  }

  /** The files `p` imports; none when `p` is not in the repository. */
  function Links(repo: map<string, string>, scan: (string, string) -> Option<Scan>, p: string): seq<string> {
    if p in repo then TargetsOf(repo, scan, p) else []
  }

  /** The position `importer` records for `t`. */
  function ImporterAt(importer: map<string, nat>, t: string): nat
    requires t in importer
  {
    importer[t]
  }

  /** `importer` after the file fetched at position `at` is seen importing `links`: a path
      met for the first time is recorded with `at`, and earlier records are kept. */
  function Recorded(importer: map<string, nat>, links: seq<string>, at: nat): (r: map<string, nat>)
    ensures forall t :: t in r <==> t in importer || t in links
    ensures forall t :: t in importer ==> r[t] == importer[t]
    ensures forall t :: t in links && t !in importer ==> r[t] == at
  {
    importer + map t | t in links && t !in importer :: at
  }

  /** Taking off a path that was already fetched keeps the invariant. */
  lemma SkipKeeps(entryPath: string, repo: map<string, string>, scan: (string, string) -> Option<Scan>,
                  toFetch: seq<string>, fetched: set<string>, attempts: seq<string>, importer: map<string, nat>)
    requires Worklist(entryPath, repo, scan, toFetch, fetched, attempts, importer)
    requires |toFetch| > 0 && toFetch[0] in fetched
    ensures Worklist(entryPath, repo, scan, toFetch[1..], fetched, attempts, importer)
  {
  }

  /** A fetch that fails is recorded and keeps the invariant. */
  lemma FailureKeeps(entryPath: string, repo: map<string, string>, scan: (string, string) -> Option<Scan>,
                     toFetch: seq<string>, fetched: set<string>, attempts: seq<string>, importer: map<string, nat>)
    requires Worklist(entryPath, repo, scan, toFetch, fetched, attempts, importer)
    requires |toFetch| > 0 && toFetch[0] !in fetched && toFetch[0] !in repo
    ensures Worklist(entryPath, repo, scan, toFetch[1..], fetched, attempts + [toFetch[0]], importer)
  {
    var current := toFetch[0];
    assert toFetch == [current] + toFetch[1..];
    RecordersKept(repo, scan, fetched, attempts, importer, current);
    if current != entryPath {
      assert ImporterAt(importer, current) < |attempts|;
    }
    RecordedEarlierGrow(entryPath, attempts, importer, current, []);
    assert Recorded(importer, [], |attempts|) == importer;
  }

  /** A failed attempt changes no record. */
  lemma RecordersKept(repo: map<string, string>, scan: (string, string) -> Option<Scan>,
                      fetched: set<string>, attempts: seq<string>, importer: map<string, nat>, current: string)
    requires Recorders(repo, scan, fetched, attempts, importer)
    ensures Recorders(repo, scan, fetched, attempts + [current], importer)
  {
    var attempts' := attempts + [current];
    forall t | t in importer
      ensures ImporterAt(importer, t) < |attempts'| && attempts'[ImporterAt(importer, t)] in fetched
      ensures t in Links(repo, scan, attempts'[ImporterAt(importer, t)])
    {
      var i := ImporterAt(importer, t);
      assert attempts'[i] == attempts[i];
    }
  }

  /** A successful fetch, followed by the enqueueing of its imports, keeps the invariant. */
  lemma FetchKeeps(entryPath: string, repo: map<string, string>, scan: (string, string) -> Option<Scan>,
                   toFetch: seq<string>, fetched: set<string>, attempts: seq<string>, importer: map<string, nat>,
                   queue: seq<string>)
    requires Worklist(entryPath, repo, scan, toFetch, fetched, attempts, importer)
    requires |toFetch| > 0 && toFetch[0] !in fetched && toFetch[0] in repo
    requires Distinct(queue)
    requires forall t :: t in queue <==>
      t in toFetch[1..] || (t in Links(repo, scan, toFetch[0]) && t !in fetched + {toFetch[0]})
    ensures var current := toFetch[0];
      Worklist(entryPath, repo, scan, queue, fetched + {current}, attempts + [current],
               Recorded(importer, Links(repo, scan, current), |attempts|))
  {
    FetchKeepsFrontier(entryPath, repo, scan, toFetch, fetched, attempts, queue);
    FetchKeepsProvenance(entryPath, repo, scan, toFetch, fetched, attempts, importer, queue);
  }

  lemma FetchKeepsFrontier(entryPath: string, repo: map<string, string>, scan: (string, string) -> Option<Scan>,
                           toFetch: seq<string>, fetched: set<string>, attempts: seq<string>, queue: seq<string>)
    requires Frontier(entryPath, repo, scan, toFetch, fetched, attempts)
    requires |toFetch| > 0 && toFetch[0] !in fetched && toFetch[0] in repo
    requires Distinct(queue)
    requires forall t :: t in queue <==>
      t in toFetch[1..] || (t in Links(repo, scan, toFetch[0]) && t !in fetched + {toFetch[0]})
    ensures Frontier(entryPath, repo, scan, queue, fetched + {toFetch[0]}, attempts + [toFetch[0]])
  {
    var current := toFetch[0];
    var fetched' := fetched + {current};
    assert toFetch == [current] + toFetch[1..];
    forall p, t | p in fetched' && t in Links(repo, scan, p)
      ensures t in fetched' || t in queue || t !in repo
    {
    }
  }

  lemma FetchKeepsProvenance(entryPath: string, repo: map<string, string>, scan: (string, string) -> Option<Scan>,
                             toFetch: seq<string>, fetched: set<string>, attempts: seq<string>, importer: map<string, nat>,
                             queue: seq<string>)
    requires Provenance(entryPath, repo, scan, toFetch, fetched, attempts, importer)
    requires |toFetch| > 0
    requires forall t :: t in queue ==> t in toFetch[1..] || t in Links(repo, scan, toFetch[0])
    ensures var current := toFetch[0];
      Provenance(entryPath, repo, scan, queue, fetched + {current}, attempts + [current],
                 Recorded(importer, Links(repo, scan, current), |attempts|))
  {
    var current := toFetch[0];
    var importer' := Recorded(importer, Links(repo, scan, current), |attempts|);
    assert current in toFetch;
    if current != entryPath {
      assert ImporterAt(importer, current) < |attempts|;
    }
    RecordersGrow(repo, scan, fetched, attempts, importer, current);
    RecordedEarlierGrow(entryPath, attempts, importer, current, Links(repo, scan, current));
    forall t | t in queue
      ensures t == entryPath || t in importer'
    {
      if t in toFetch[1..] {
        assert t in toFetch;
      }
    }
  }

  /** Fetching `current` and recording its imports at its position keeps every record. */
  lemma RecordersGrow(repo: map<string, string>, scan: (string, string) -> Option<Scan>,
                      fetched: set<string>, attempts: seq<string>, importer: map<string, nat>, current: string)
    requires Recorders(repo, scan, fetched, attempts, importer)
    ensures Recorders(repo, scan, fetched + {current}, attempts + [current],
                      Recorded(importer, Links(repo, scan, current), |attempts|))
  {
    var fetched' := fetched + {current};
    var attempts' := attempts + [current];
    var importer' := Recorded(importer, Links(repo, scan, current), |attempts|);
    forall t | t in importer'
      ensures ImporterAt(importer', t) < |attempts'| && attempts'[ImporterAt(importer', t)] in fetched'
      ensures t in Links(repo, scan, attempts'[ImporterAt(importer', t)])
    {
      if t in importer {
        var i := ImporterAt(importer, t);
        assert attempts'[i] == attempts[i];
      } else {
        assert attempts'[|attempts|] == current;
      }
    }
  }

  /** A new attempt of the entry or of a recorded path keeps every record earlier. */
  lemma RecordedEarlierGrow(entryPath: string, attempts: seq<string>, importer: map<string, nat>,
                            current: string, links: seq<string>)
    requires RecordedEarlier(entryPath, attempts, importer)
    requires current == entryPath || (current in importer && importer[current] < |attempts|)
    ensures RecordedEarlier(entryPath, attempts + [current], Recorded(importer, links, |attempts|))
  {
    var attempts' := attempts + [current];
    var importer' := Recorded(importer, links, |attempts|);
    forall k | 0 <= k < |attempts'|
      ensures attempts'[k] == entryPath || (attempts'[k] in importer' && importer'[attempts'[k]] < k)
    {
      if k < |attempts| {
        assert attempts'[k] == attempts[k];
      }
    }
  }

  /** Taking one more import adds its target, when it is relative, and nothing else. */
  lemma TargetsStep(current: string, imports: seq<string>, i: int)
    requires 0 <= i < |imports|
    ensures forall t :: t in Targets(current, imports[..i + 1]) <==>
      t in Targets(current, imports[..i]) || (IsRelative(imports[i]) && t == ImportTarget(current, imports[i]))
  {
    var pre := imports[..i + 1];
    assert pre[..i] == imports[..i] && pre[i] == imports[i];
    assert Targets(current, pre) ==
      Targets(current, imports[..i]) + (if IsRelative(imports[i]) then [ImportTarget(current, imports[i])] else []);
  }

  /** Appending a path not yet present keeps a queue duplicate-free and its prefix intact. */
  lemma DistinctSnoc(queue: seq<string>, t: string, n: int)
    requires Distinct(queue) && t !in queue && 0 <= n <= |queue|
    ensures Distinct(queue + [t])
    ensures (queue + [t])[..n] == queue[..n]
  {
  }

  /** The inner `for` over one file's imports: each relative import's target is added to
      the set of files to fetch, at the end and only when it is neither fetched nor already
      waiting (a `Set` keeps one copy of each path, in insertion order). */
  method EnqueueImports(current: string, imports: seq<string>, fetched: set<string>, toFetch: seq<string>)
    returns (queue: seq<string>)
    requires Distinct(toFetch)
    ensures Distinct(queue)
    ensures |queue| >= |toFetch| && queue[..|toFetch|] == toFetch
    ensures forall t :: t in queue <==> t in toFetch || (t in Targets(current, imports) && t !in fetched)
  {
    queue := toFetch;
    var i := 0;
    while i < |imports|
      invariant 0 <= i <= |imports|
      invariant Distinct(queue)
      invariant |queue| >= |toFetch| && queue[..|toFetch|] == toFetch
      invariant forall t :: t in queue <==> t in toFetch || (t in Targets(current, imports[..i]) && t !in fetched)
    {
      var imp := imports[i];
      assert imports[..i + 1][..i] == imports[..i];
      TargetsStep(current, imports, i);
      if IsRelative(imp) {
        var target := ImportTarget(current, imp);
        if !(target in fetched) && !(target in queue) {
          DistinctSnoc(queue, target, |toFetch|);
          queue := queue + [target];
        }
      }
      i := i + 1;
    }
    assert imports[..i] == imports;
  }

  // ---------------------------------------------------------------------------
  // getLatestSpec
  // ---------------------------------------------------------------------------

  /** A stored document: the table row `openAPISpec`. */
  datatype StoredSpec = StoredSpec(id: string, projectId: string, version: string, createdAt: int, isPublished: bool, specJson: Document)

  /** `getLatestSpec`: a stored document of the project with the latest creation time, or
      none when the project has none. Among documents created at the same time the first
      in table order is taken. */
  function LatestSpec(specs: seq<StoredSpec>, projectId: string): (r: Option<StoredSpec>)
    ensures r.None? <==> forall s :: s in specs ==> s.projectId != projectId
    ensures r.Some? ==> r.value in specs && r.value.projectId == projectId
    ensures r.Some? ==> forall s :: s in specs && s.projectId == projectId ==> s.createdAt <= r.value.createdAt
  {
    if specs == [] then None
    else
      var best := LatestSpec(specs[1..], projectId);
      assert forall s :: s in specs[1..] ==> s in specs;
      if specs[0].projectId != projectId then best
      else if best.None? || specs[0].createdAt >= best.value.createdAt then Some(specs[0])
      else best
  }
}
