/** The Express route extractor: it walks every call expression of one source file and
    turns each `<x>.get|post|put|delete|patch(path, ..., handler)` call into a route, with
    the parameters and responses it can read off an inline handler.

    The TypeScript syntax tree is represented by the small `Node`/`Stmt` datatypes below;
    `Text` plays the part of a node's source text. */
module ExpressParser {
  import opened Options
  import opened Strings

  // ---------------------------------------------------------------------------
  // Syntax tree
  // ---------------------------------------------------------------------------

  /** The node kinds the extractor distinguishes. `Other` is any other expression, given by
      its source text and its sub-expressions (a number literal, an object literal, ...). */
  datatype Node =
    | Call(callee: Node, args: seq<Node>)
    | PropertyAccess(target: Node, name: string)
    | Identifier(ident: string)
    | StringLiteral(quote: char, value: string)
    | ArrowFn(params: seq<string>, body: seq<Stmt>)
    | FunctionExpr(params: seq<string>, body: seq<Stmt>)
    | Other(raw: string, children: seq<Node>)

  /** A statement of a file or of a function body, with the description of the JSDoc
      comment attached to it (`""` when it has none). */
  datatype Stmt = Stmt(doc: string, expr: Node)

  /** A node's source text. */
  function Text(n: Node): string
    decreases n, 1
  {
    match n
    case Call(callee, args) => Text(callee) + "(" + ListText(args) + ")"
    case PropertyAccess(target, name) => Text(target) + "." + name
    case Identifier(ident) => ident
    case StringLiteral(q, v) => [q] + v + [q]
    case ArrowFn(ps, body) => "(" + Join(ps, ", ") + ") => {" + BodyText(body) + " }"
    case FunctionExpr(ps, body) => "function (" + Join(ps, ", ") + ") {" + BodyText(body) + " }"
    case Other(raw, _) => raw
  }

  function ListText(ns: seq<Node>): string
    decreases ns, 0
  {
    if ns == [] then ""
    else if |ns| == 1 then Text(ns[0])
    else Text(ns[0]) + ", " + ListText(ns[1..])
  }

  function BodyText(ss: seq<Stmt>): string
    decreases ss, 0
  {
    if ss == [] then "" else " " + Text(ss[0].expr) + ";" + BodyText(ss[1..])
  }

  /** A node met during a traversal, with the description of its nearest enclosing statement. */
  datatype Site = Site(node: Node, doc: string)

  predicate IsFunction(n: Node) {
    n.ArrowFn? || n.FunctionExpr?
  }

  /** `n` followed by all its descendants, in document order (pre-order). */
  function Nodes(n: Node, doc: string): (r: seq<Site>)
    ensures |r| >= 1 && r[0] == Site(n, doc)
    decreases n, 1
  {
    [Site(n, doc)] +
    match n
    case Call(callee, args) => Nodes(callee, doc) + NodesOfList(args, doc)
    case PropertyAccess(target, _) => Nodes(target, doc)
    case ArrowFn(_, body) => NodesOfBody(body)
    case FunctionExpr(_, body) => NodesOfBody(body)
    case Other(_, children) => NodesOfList(children, doc)
    case Identifier(_) => []
    case StringLiteral(_, _) => []
  }

  function NodesOfList(ns: seq<Node>, doc: string): seq<Site>
    decreases ns, 0
  {
    if ns == [] then [] else Nodes(ns[0], doc) + NodesOfList(ns[1..], doc)
  }

  function NodesOfBody(ss: seq<Stmt>): seq<Site>
    decreases ss, 0
  {
    if ss == [] then [] else Nodes(ss[0].expr, ss[0].doc) + NodesOfBody(ss[1..])
  }

  /** The call expressions among `sites`, in order. */
  function CallsAmong(sites: seq<Site>): (r: seq<Site>)
    ensures forall k :: 0 <= k < |r| ==> r[k].node.Call?
    ensures |r| <= |sites|
  {
    if sites == [] then []
    else CallsAmong(sites[..|sites| - 1]) + (if sites[|sites| - 1].node.Call? then [sites[|sites| - 1]] else [])
  }

  /** Every call site occurs among the calls as often as among the sites, and nothing else
      occurs. */
  lemma {:induction false} CallsAmongCounts(sites: seq<Site>)
    ensures forall s :: multiset(CallsAmong(sites))[s] == if s.node.Call? then multiset(sites)[s] else 0
  {
    if sites != [] {
      var init := sites[..|sites| - 1];
      CallsAmongCounts(init);
      assert sites == init + [sites[|sites| - 1]];
    }
  }

  /** Selecting calls keeps document order: the calls of a concatenation are the calls of
      its first part followed by those of its second. */
  lemma {:induction false} CallsAmongAppend(a: seq<Site>, b: seq<Site>)
    ensures CallsAmong(a + b) == CallsAmong(a) + CallsAmong(b)
  {
    if b == [] {
      assert a + b == a;
    } else {
      var init := b[..|b| - 1];
      var last := b[|b| - 1];
      CallsAmongAppend(a, init);
      var tail := if last.node.Call? then [last] else [];
      assert (a + b)[..|a + b| - 1] == a + init;
      assert (a + b)[|a + b| - 1] == last;
      calc {
        CallsAmong(a + b);
        CallsAmong(a + init) + tail;
        CallsAmong(a) + CallsAmong(init) + tail;
        { assert CallsAmong(b) == CallsAmong(init) + tail; }
        CallsAmong(a) + CallsAmong(b);
      }
    }
  }

  /** `sourceFile.getDescendantsOfKind(SyntaxKind.CallExpression)`, each call paired with the
      description of the statement it belongs to. */
  function CallSites(file: seq<Stmt>): (r: seq<Site>)
    ensures forall k :: 0 <= k < |r| ==> r[k].node.Call?
  {
    CallsAmong(NodesOfBody(file))
  }

  /** The call sites are every call of the file, as often as it occurs and nothing else, in
      document order: the calls of the statements one after the other. */
  lemma CallSitesExactly(file: seq<Stmt>)
    ensures forall s :: s in CallSites(file) <==> s in NodesOfBody(file) && s.node.Call?
    ensures forall s :: multiset(CallSites(file))[s] == if s.node.Call? then multiset(NodesOfBody(file))[s] else 0
    ensures file != [] ==>
      CallSites(file) == CallsAmong(Nodes(file[0].expr, file[0].doc)) + CallSites(file[1..])
  {
    CallsAmongCounts(NodesOfBody(file));
    forall s
      ensures s in CallSites(file) <==> s in NodesOfBody(file) && s.node.Call?
    {
      assert s in CallSites(file) <==> multiset(CallSites(file))[s] > 0;
      assert s in NodesOfBody(file) <==> multiset(NodesOfBody(file))[s] > 0;
    }
    if file != [] {
      CallsAmongAppend(Nodes(file[0].expr, file[0].doc), NodesOfBody(file[1..]));
    }
  }

  /** `fn.getDescendants()` of a handler function: the nodes of its body (the parameter
      declarations hold no property access or call). */
  function HandlerNodes(fn: Node): seq<Node>
    requires IsFunction(fn)
  {
    SiteNodes(NodesOfBody(fn.body))
  }

  function SiteNodes(sites: seq<Site>): seq<Node> {
    if sites == [] then [] else [sites[0].node] + SiteNodes(sites[1..])
  }

  // ---------------------------------------------------------------------------
  // Routes
  // ---------------------------------------------------------------------------

  datatype Location = InPath | InQuery | InBody | InHeader

  datatype Param = Param(name: string, location: Location, required: bool)

  /** A captured response; `status` is `None` where `parseInt` gives `NaN`. */
  datatype Response = Response(status: Option<int>, description: string)

  datatype ParsedRoute = ParsedRoute(
    httpMethod: string,
    path: string,
    sourceFile: string,
    description: string,
    parameters: seq<Param>,
    responses: seq<Response>)

  const AllowedMethods: seq<string> := ["get", "post", "put", "delete", "patch"]

  /** A call counts as a route when its callee is a property access named after one of the
      five HTTP verbs and it has at least two arguments. The receiver is not looked at. */
  predicate IsExpressRoute(call: Node) {
    && call.Call?
    && call.callee.PropertyAccess?
    && call.callee.name in AllowedMethods
    && |call.args| >= 2
  }

  predicate IsQuote(c: char) {
    c == '\'' || c == '"' || c == '`'
  }

  /** `text.replace(/^['"`]|['"`]$/g, '')`: one quote character is removed at the start and
      one at the end; a lone quote character is removed once. */
  function StripQuotes(s: string): string {
    var lead := |s| > 0 && IsQuote(s[0]);
    var trail := |s| >= 2 && IsQuote(s[|s| - 1]);
    s[(if lead then 1 else 0)..|s| - (if trail then 1 else 0)]
  }

  /** `fn.getParameters()[i]?.getName()`, kept only when it is a non-empty name. */
  function ParamName(fn: Node, i: nat): Option<string>
    requires IsFunction(fn)
  {
    if i < |fn.params| && fn.params[i] != "" then Some(fn.params[i]) else None
  }

  /** `text.split('.')[2]` for a text holding at least two dots. */
  function ThirdSegment(text: string): string
    requires Count(text, '.') >= 2
  {
    SplitLength(text, '.');
    Split(text, '.')[2]
  }

  /** A text that starts with `<req>.<key>.` has at least two dots. */
  lemma PrefixDots(text: string, req: string, key: string)
    requires StartsWith(text, req + "." + key + ".")
    ensures Count(text, '.') >= 2
  {
    var p := req + "." + key + ".";
    assert text == p + text[|p|..];
    CountAppend(p, text[|p|..], '.');
    CountAppend(req + "." + key, ".", '.');
    CountAppend(req + ".", key, '.');
    CountAppend(req, ".", '.');
  }

  /** The parameters one handler node contributes: `<req>.params.<n>` gives a required path
      parameter, `<req>.query.<n>` an optional query parameter. */
  function ParamsAt(n: Node, req: Option<string>): seq<Param> {
    if req.None? || !n.PropertyAccess? then []
    else
      var text := Text(n);
      (if StartsWith(text, req.value + ".params.")
       then PrefixDots(text, req.value, "params"); [Param(ThirdSegment(text), InPath, true)]
       else []) +
      (if StartsWith(text, req.value + ".query.")
       then PrefixDots(text, req.value, "query"); [Param(ThirdSegment(text), InQuery, false)]
       else [])
  }

  /** The responses one handler node contributes: a `<res>.status(arg, ...)` call. */
  function ResponsesAt(n: Node, res: Option<string>): seq<Response> {
    if res.Some? && n.Call? && Text(n.callee) == res.value + ".status" && |n.args| > 0
    then [Response(ParseInt(Text(n.args[0])), "Generated response")]
    else []
  }

  /** The parameters pushed while visiting `ns` in order. */
  function CollectParams(ns: seq<Node>, req: Option<string>): seq<Param> {
    if ns == [] then [] else CollectParams(ns[..|ns| - 1], req) + ParamsAt(ns[|ns| - 1], req)
  }

  /** The responses pushed while visiting `ns` in order. */
  function CollectResponses(ns: seq<Node>, res: Option<string>): seq<Response> {
    if ns == [] then [] else CollectResponses(ns[..|ns| - 1], res) + ResponsesAt(ns[|ns| - 1], res)
  }

  /** A path parameter is always required and a query parameter never is. */
  predicate WellPlaced(p: Param) {
    (p.location == InPath && p.required) || (p.location == InQuery && !p.required)
  }

  lemma {:induction false} CollectParamsPlaced(ns: seq<Node>, req: Option<string>)
    ensures forall p :: p in CollectParams(ns, req) ==> WellPlaced(p)
  {
    if ns != [] {
      CollectParamsPlaced(ns[..|ns| - 1], req);
    }
  }

  lemma {:induction false} CollectResponsesLabelled(ns: seq<Node>, res: Option<string>)
    ensures forall x :: x in CollectResponses(ns, res) ==> x.description == "Generated response"
  {
    if ns != [] {
      CollectResponsesLabelled(ns[..|ns| - 1], res);
    }
  }

  /** The third `.`-separated piece of `<req>.<key>.<rest>` is the first piece of `rest`. */
  lemma ThirdSegmentAfter(text: string, req: string, key: string, rest: string)
    requires '.' !in req && '.' !in key
    requires text == req + "." + key + "." + rest
    ensures Count(text, '.') >= 2
    ensures ThirdSegment(text) == Split(rest, '.')[0]
  {
    PrefixDots(text, req, key);
    assert text == req + ['.'] + (key + ['.'] + rest);
    SplitCons(req, '.', key + ['.'] + rest);
    SplitCons(key, '.', rest);
  }

  /** What one handler node contributes: a property access whose text starts with
      `<req>.params.` is a required path parameter named by the next piece of its text, one
      starting with `<req>.query.` an optional query parameter named likewise; no other
      node, and no node of a handler without a first parameter, contributes one. */
  lemma ParamsAtMeaning(n: Node, req: Option<string>)
    requires req.Some? ==> '.' !in req.value
    ensures req.None? || !n.PropertyAccess? ==> ParamsAt(n, req) == []
    ensures req.Some? && n.PropertyAccess? ==>
      var t := Text(n); var r := req.value;
      && (StartsWith(t, r + ".params.") ==>
            ParamsAt(n, req) == [Param(Split(t[|r| + 8..], '.')[0], InPath, true)])
      && (StartsWith(t, r + ".query.") ==>
            ParamsAt(n, req) == [Param(Split(t[|r| + 7..], '.')[0], InQuery, false)])
      && (!StartsWith(t, r + ".params.") && !StartsWith(t, r + ".query.") ==> ParamsAt(n, req) == [])
  {
    if req.Some? && n.PropertyAccess? {
      var t := Text(n);
      var r := req.value;
      if StartsWith(t, r + ".params.") {
        ParamsAtPathPrefix(n, r);
      }
      if StartsWith(t, r + ".query.") {
        ParamsAtQueryPrefix(n, r);
      }
    }
  }

  lemma ParamsAtPathPrefix(n: Node, r: string)
    requires '.' !in r && n.PropertyAccess?
    requires StartsWith(Text(n), r + ".params.")
    ensures ParamsAt(n, Some(r)) == [Param(Split(Text(n)[|r| + 8..], '.')[0], InPath, true)]
  {
    var t := Text(n);
    assert t == r + "." + "params" + "." + t[|r| + 8..] by {
      assert t == t[..|r| + 8] + t[|r| + 8..];
    }
    ThirdSegmentAfter(t, r, "params", t[|r| + 8..]);
    assert t[|r| + 1] == 'p';
    assert !StartsWith(t, r + ".query.") by {
      assert (r + ".query.")[|r| + 1] == 'q';
    }
  }

  lemma ParamsAtQueryPrefix(n: Node, r: string)
    requires '.' !in r && n.PropertyAccess?
    requires StartsWith(Text(n), r + ".query.")
    ensures ParamsAt(n, Some(r)) == [Param(Split(Text(n)[|r| + 7..], '.')[0], InQuery, false)]
  {
    var t := Text(n);
    assert t == r + "." + "query" + "." + t[|r| + 7..] by {
      assert t == t[..|r| + 7] + t[|r| + 7..];
    }
    ThirdSegmentAfter(t, r, "query", t[|r| + 7..]);
    assert t[|r| + 1] == 'q';
    assert !StartsWith(t, r + ".params.") by {
      assert (r + ".params.")[|r| + 1] == 'p';
    }
  }

  /** `<req>.params.<name>` in a handler whose first parameter is `req` is the required path
      parameter `name`; `<req>.query.<name>` is the optional query parameter `name`. */
  lemma ParamsAtNamed(req: string, name: string)
    requires '.' !in req && '.' !in name
    ensures ParamsAt(PropertyAccess(PropertyAccess(Identifier(req), "params"), name), Some(req)) ==
      [Param(name, InPath, true)]
    ensures ParamsAt(PropertyAccess(PropertyAccess(Identifier(req), "query"), name), Some(req)) ==
      [Param(name, InQuery, false)]
  {
    var p := PropertyAccess(PropertyAccess(Identifier(req), "params"), name);
    var tp := Text(p);
    assert Text(PropertyAccess(Identifier(req), "params")) == req + "." + "params";
    assert tp == req + ".params." + name;
    assert tp[..|req| + 8] == req + ".params.";
    assert tp[|req| + 8..] == name;
    ParamsAtMeaning(p, Some(req));
    SplitNone(name, '.');
    var q := PropertyAccess(PropertyAccess(Identifier(req), "query"), name);
    var tq := Text(q);
    assert Text(PropertyAccess(Identifier(req), "query")) == req + "." + "query";
    assert tq == req + ".query." + name;
    assert tq[..|req| + 7] == req + ".query.";
    assert tq[|req| + 7..] == name;
    ParamsAtMeaning(q, Some(req));
  }

  /** Only a `<res>.status(...)` call with an argument contributes a response, and
      `<res>.status(<code>, ...)` with a decimal code contributes exactly that status. */
  lemma ResponsesAtMeaning(n: Node, res: Option<string>, code: nat, more: seq<Node>)
    ensures ResponsesAt(n, res) != [] ==>
      res.Some? && n.Call? && Text(n.callee) == res.value + ".status" && |n.args| > 0 &&
      ResponsesAt(n, res) == [Response(ParseInt(Text(n.args[0])), "Generated response")]
    ensures res.Some? ==>
      ResponsesAt(Call(PropertyAccess(Identifier(res.value), "status"), [Other(NatToString(code), [])] + more), res) ==
        [Response(Some(code), "Generated response")]
  {
    if res.Some? {
      var c := Call(PropertyAccess(Identifier(res.value), "status"), [Other(NatToString(code), [])] + more);
      assert Text(c.callee) == res.value + ".status";
      assert Text(c.args[0]) == NatToString(code);
      ParseIntNatToString(code);
    }
  }

  /** A parameter is collected exactly when some visited node contributes it. */
  lemma CollectParamsMembers(ns: seq<Node>, req: Option<string>)
    ensures forall p :: p in CollectParams(ns, req) <==> exists k :: 0 <= k < |ns| && p in ParamsAt(ns[k], req)
  {
    forall p
      ensures p in CollectParams(ns, req) <==> exists k :: 0 <= k < |ns| && p in ParamsAt(ns[k], req)
    {
      if p in CollectParams(ns, req) {
        var k := CollectParamsSource(ns, req, p);
      }
      if exists k :: 0 <= k < |ns| && p in ParamsAt(ns[k], req) {
        var k :| 0 <= k < |ns| && p in ParamsAt(ns[k], req);
        CollectParamsHas(ns, req, k, p);
      }
    }
  }

  /** The node a collected parameter comes from. */
  lemma {:induction false} CollectParamsSource(ns: seq<Node>, req: Option<string>, p: Param) returns (k: nat)
    requires p in CollectParams(ns, req)
    ensures k < |ns| && p in ParamsAt(ns[k], req)
  {
    var init := ns[..|ns| - 1];
    if p in ParamsAt(ns[|ns| - 1], req) {
      k := |ns| - 1;
    } else {
      k := CollectParamsSource(init, req, p);
      assert init[k] == ns[k];
    }
  }

  /** What the node at `k` contributes is collected. */
  lemma {:induction false} CollectParamsHas(ns: seq<Node>, req: Option<string>, k: nat, p: Param)
    requires k < |ns| && p in ParamsAt(ns[k], req)
    ensures p in CollectParams(ns, req)
  {
    var init := ns[..|ns| - 1];
    if k < |ns| - 1 {
      assert init[k] == ns[k];
      CollectParamsHas(init, req, k, p);
    }
  }

  /** A response is collected exactly when some visited node contributes it. */
  lemma CollectResponsesMembers(ns: seq<Node>, res: Option<string>)
    ensures forall x :: x in CollectResponses(ns, res) <==> exists k :: 0 <= k < |ns| && x in ResponsesAt(ns[k], res)
  {
    forall x
      ensures x in CollectResponses(ns, res) <==> exists k :: 0 <= k < |ns| && x in ResponsesAt(ns[k], res)
    {
      if x in CollectResponses(ns, res) {
        var k := CollectResponsesSource(ns, res, x);
      }
      if exists k :: 0 <= k < |ns| && x in ResponsesAt(ns[k], res) {
        var k :| 0 <= k < |ns| && x in ResponsesAt(ns[k], res);
        CollectResponsesHas(ns, res, k, x);
      }
    }
  }

  /** The node a collected response comes from. */
  lemma {:induction false} CollectResponsesSource(ns: seq<Node>, res: Option<string>, x: Response) returns (k: nat)
    requires x in CollectResponses(ns, res)
    ensures k < |ns| && x in ResponsesAt(ns[k], res)
  {
    var init := ns[..|ns| - 1];
    if x in ResponsesAt(ns[|ns| - 1], res) {
      k := |ns| - 1;
    } else {
      k := CollectResponsesSource(init, res, x);
      assert init[k] == ns[k];
    }
  }

  /** What the node at `k` contributes is collected. */
  lemma {:induction false} CollectResponsesHas(ns: seq<Node>, res: Option<string>, k: nat, x: Response)
    requires k < |ns| && x in ResponsesAt(ns[k], res)
    ensures x in CollectResponses(ns, res)
  {
    var init := ns[..|ns| - 1];
    if k < |ns| - 1 {
      assert init[k] == ns[k];
      CollectResponsesHas(init, res, k, x);
    }
  }

  // ---------------------------------------------------------------------------
  // De-duplication: Array.from(new Set(list.map(JSON.stringify))).map(JSON.parse)
  // ---------------------------------------------------------------------------

  /** The elements of `s` without repetitions, each at the place of its first occurrence. */
  function Dedup<T(==)>(s: seq<T>): seq<T> {
    if s == [] then []
    else
      var d := Dedup(s[..|s| - 1]);
      if s[|s| - 1] in d then d else d + [s[|s| - 1]]
  }

  predicate NoDuplicates<T(==)>(s: seq<T>) {
    forall i, j :: 0 <= i < j < |s| ==> s[i] != s[j]
  }

  /** Position of the first occurrence of `x` in `s`. */
  function FirstIndex<T(==)>(s: seq<T>, x: T): (i: nat)
    requires x in s
    ensures i < |s| && s[i] == x
    ensures forall j :: 0 <= j < i ==> s[j] != x
  {
    if s[0] == x then 0 else 1 + FirstIndex(s[1..], x)
  }

  /** De-duplication keeps exactly the elements of its input, once each. */
  lemma {:induction false} DedupElements<T>(s: seq<T>)
    ensures NoDuplicates(Dedup(s))
    ensures forall x :: x in Dedup(s) <==> x in s
  {
    if s != [] {
      var init := s[..|s| - 1];
      DedupElements(init);
      assert s == init + [s[|s| - 1]];
    }
  }

  /** De-duplication keeps the order of first occurrences. */
  lemma {:induction false} DedupFirstOccurrenceOrder<T>(s: seq<T>)
    ensures forall i, j :: 0 <= i < j < |Dedup(s)| ==>
      Dedup(s)[i] in s && Dedup(s)[j] in s && FirstIndex(s, Dedup(s)[i]) < FirstIndex(s, Dedup(s)[j])
  {
    DedupElements(s);
    if s != [] {
      var init := s[..|s| - 1];
      var last := s[|s| - 1];
      DedupFirstOccurrenceOrder(init);
      DedupElements(init);
      assert s == init + [last];
      var d := Dedup(init);
      forall x | x in init
        ensures FirstIndex(s, x) == FirstIndex(init, x)
      {
        var k := FirstIndex(init, x);
        assert s[k] == x;
        FirstIndexAt(s, x, k);
      }
      if last !in init {
        FirstIndexAt(s, last, |s| - 1);
        forall i | 0 <= i < |d|
          ensures FirstIndex(s, d[i]) < |s| - 1
        {
          assert d[i] in d;
        }
      }
    }
  }

  lemma FirstIndexAt<T>(s: seq<T>, x: T, k: nat)
    requires k < |s| && s[k] == x
    requires forall j :: 0 <= j < k ==> s[j] != x
    ensures FirstIndex(s, x) == k
  {
  }

  // ---------------------------------------------------------------------------
  // extractRouteInfo and parseCode
  // ---------------------------------------------------------------------------

  /** The route `extractRouteInfo` builds from a qualifying call. */
  function RouteOf(site: Site, fileName: string): ParsedRoute
    requires IsExpressRoute(site.node)
  {
    var call := site.node;
    ParsedRoute(
      ToUpper(call.callee.name),
      StripQuotes(Text(call.args[0])),
      fileName,
      site.doc,
      RouteParameters(call),
      RouteResponses(call))
  }

  /** The handler's descendants; none when the last argument is not an inline function. */
  function HandlerNodesOf(call: Node): seq<Node>
    requires IsExpressRoute(call)
  {
    var handler := call.args[|call.args| - 1];
    if IsFunction(handler) then HandlerNodes(handler) else []
  }

  /** The name of the handler's `i`-th parameter (`req` for 0, `res` for 1). */
  function HandlerParam(call: Node, i: nat): Option<string>
    requires IsExpressRoute(call)
  {
    var handler := call.args[|call.args| - 1];
    if IsFunction(handler) then ParamName(handler, i) else None
  }

  function RouteParameters(call: Node): seq<Param>
    requires IsExpressRoute(call)
  {
    Dedup(CollectParams(HandlerNodesOf(call), HandlerParam(call, 0)))
  }

  function RouteResponses(call: Node): seq<Response>
    requires IsExpressRoute(call)
  {
    CollectResponses(HandlerNodesOf(call), HandlerParam(call, 1))
  }

  /** `extractRouteInfo`: visits the handler's descendants once, pushing parameters and
      responses. `extractionFails` stands for an exception thrown by the syntax-tree library
      inside the `try`, which makes the call yield no route. */
  method ExtractRouteInfo(site: Site, fileName: string, extractionFails: bool) returns (route: Option<ParsedRoute>)
    requires IsExpressRoute(site.node)
    ensures route == if extractionFails then None else Some(RouteOf(site, fileName))
  {
    if extractionFails {
      return None;
    }
    var call := site.node;
    var verb := ToUpper(call.callee.name);
    var path := StripQuotes(Text(call.args[0]));
    var parameters, responses := VisitHandler(HandlerNodesOf(call), HandlerParam(call, 0), HandlerParam(call, 1));
    route := Some(ParsedRoute(verb, path, fileName, site.doc, Dedup(parameters), responses));
  }

  /** The `forEach` over a handler's descendants: pushes what each node contributes, in order. */
  method VisitHandler(nodes: seq<Node>, req: Option<string>, res: Option<string>)
    returns (parameters: seq<Param>, responses: seq<Response>)
    ensures parameters == CollectParams(nodes, req)
    ensures responses == CollectResponses(nodes, res)
  {
    parameters, responses := [], [];
    var i := 0;
    while i < |nodes|
      invariant 0 <= i <= |nodes|
      invariant parameters == CollectParams(nodes[..i], req)
      invariant responses == CollectResponses(nodes[..i], res)
    {
      var node := nodes[i];
      assert nodes[..i + 1][..i] == nodes[..i];
      parameters := parameters + ParamsAt(node, req);
      responses := responses + ResponsesAt(node, res);
      i := i + 1;
    }
    assert nodes[..i] == nodes;
  }

  /** The positions, in increasing order, of the first `n` calls that yield a route;
      `failing` holds the positions of the calls whose extraction throws. */
  function RouteIndices(calls: seq<Site>, n: nat, failing: set<nat>): seq<nat>
    requires n <= |calls|
  {
    if n == 0 then []
    else
      RouteIndices(calls, n - 1, failing) +
      (if IsExpressRoute(calls[n - 1].node) && n - 1 !in failing then [n - 1] else [])
  }

  /** Routes come out in document order, exactly one for each qualifying call whose
      extraction does not fail, and none for any other call: the positions that yield a
      route are increasing, each is a qualifying call whose extraction does not fail, and
      every such call is among them. */
  lemma {:induction false} RouteIndicesCorrect(calls: seq<Site>, n: nat, failing: set<nat>)
    requires n <= |calls|
    ensures Qualifying(calls, RouteIndices(calls, n, failing))
    ensures var idx := RouteIndices(calls, n, failing);
      && (forall k :: 0 <= k < |idx| ==> idx[k] < n && idx[k] !in failing)
      && (forall k, l :: 0 <= k < l < |idx| ==> idx[k] < idx[l])
      && (forall j :: 0 <= j < n && IsExpressRoute(calls[j].node) && j !in failing ==> j in idx)
  {
    if n > 0 {
      RouteIndicesCorrect(calls, n - 1, failing);
      var prev := RouteIndices(calls, n - 1, failing);
      if IsExpressRoute(calls[n - 1].node) && n - 1 !in failing {
        var idx := prev + [n - 1];
        assert RouteIndices(calls, n, failing) == idx;
        assert forall k :: 0 <= k < |prev| ==> idx[k] == prev[k];
      } else {
        assert RouteIndices(calls, n, failing) == prev;
      }
    }
  }

  predicate Qualifying(calls: seq<Site>, idx: seq<nat>) {
    forall k :: 0 <= k < |idx| ==> idx[k] < |calls| && IsExpressRoute(calls[idx[k]].node)
  }

  /** The routes extracted from the calls at positions `idx`, in that order. */
  function RoutesAt(calls: seq<Site>, idx: seq<nat>, fileName: string): (r: seq<ParsedRoute>)
    requires Qualifying(calls, idx)
    ensures |r| == |idx|
  {
    if idx == [] then []
    else RoutesAt(calls, idx[..|idx| - 1], fileName) + [RouteOf(calls[idx[|idx| - 1]], fileName)]
  }

  lemma RoutesAtSnoc(calls: seq<Site>, idx: seq<nat>, i: nat, fileName: string)
    requires Qualifying(calls, idx) && i < |calls| && IsExpressRoute(calls[i].node)
    ensures Qualifying(calls, idx + [i])
    ensures RoutesAt(calls, idx + [i], fileName) == RoutesAt(calls, idx, fileName) + [RouteOf(calls[i], fileName)]
  {
    assert (idx + [i])[..|idx|] == idx;
  }

  /** The k-th route is the one extracted from the call at the k-th position. */
  lemma {:induction false} RoutesAtIndex(calls: seq<Site>, idx: seq<nat>, fileName: string, k: nat)
    requires Qualifying(calls, idx) && k < |idx|
    ensures RoutesAt(calls, idx, fileName)[k] == RouteOf(calls[idx[k]], fileName)
  {
    var init := idx[..|idx| - 1];
    var last := RouteOf(calls[idx[|idx| - 1]], fileName);
    assert RoutesAt(calls, idx, fileName) == RoutesAt(calls, init, fileName) + [last];
    if k < |init| {
      RoutesAtIndex(calls, init, fileName, k);
      assert init[k] == idx[k];
    }
  }

  /** What `parseCode` returns; `source` is `None` when building the syntax tree throws. */
  function ParsedRoutes(source: Option<seq<Stmt>>, fileName: string, failing: set<nat>): seq<ParsedRoute> {
    if source.None? then []
    else
      var calls := CallSites(source.value);
      RouteIndicesCorrect(calls, |calls|, failing);
      RoutesAt(calls, RouteIndices(calls, |calls|, failing), fileName)
  }

  /** `parseCode`: one pass over the call expressions, pushing one route per qualifying call
      whose extraction succeeds. */
  method ParseCode(source: Option<seq<Stmt>>, fileName: string, failing: set<nat>) returns (routes: seq<ParsedRoute>)
    ensures routes == ParsedRoutes(source, fileName, failing)
  {
    if source.None? {
      return [];
    }
    var calls := CallSites(source.value);
    routes := [];
    var i := 0;
    while i < |calls|
      invariant 0 <= i <= |calls|
      invariant Qualifying(calls, RouteIndices(calls, i, failing))
      invariant routes == RoutesAt(calls, RouteIndices(calls, i, failing), fileName)
    {
      ghost var idx := RouteIndices(calls, i, failing);
      var site := calls[i];
      if IsExpressRoute(site.node) {
        var route := ExtractRouteInfo(site, fileName, i in failing);
        if route.Some? {
          assert RouteIndices(calls, i + 1, failing) == idx + [i];
          RoutesAtSnoc(calls, idx, i, fileName);
          routes := routes + [route.value];
        } else {
          assert RouteIndices(calls, i + 1, failing) == idx;
        }
      } else {
        assert RouteIndices(calls, i + 1, failing) == idx;
      }
      i := i + 1;
    }
    RouteIndicesCorrect(calls, |calls|, failing);
  }

  // ---------------------------------------------------------------------------
  // Properties
  // ---------------------------------------------------------------------------

  /** Every route `parseCode` returns names the given file, carries one of the five upper-case
      verbs, has no repeated parameter, pairs `path` with required and `query` with optional,
      and labels each response `Generated response`. A file that does not parse gives none. */
  lemma ParsedRoutesShape(source: Option<seq<Stmt>>, fileName: string, failing: set<nat>)
    ensures source.None? ==> ParsedRoutes(source, fileName, failing) == []
    ensures forall r :: r in ParsedRoutes(source, fileName, failing) ==> RouteShaped(r, fileName)
  {
    if source.Some? {
      var calls := CallSites(source.value);
      RouteIndicesCorrect(calls, |calls|, failing);
      var idx := RouteIndices(calls, |calls|, failing);
      var routes := RoutesAt(calls, idx, fileName);
      forall r | r in routes
        ensures RouteShaped(r, fileName)
      {
        var k :| 0 <= k < |routes| && routes[k] == r;
        RoutesAtIndex(calls, idx, fileName, k);
        RouteOfShape(calls[idx[k]], fileName);
      }
    }
  }

  predicate RouteShaped(r: ParsedRoute, fileName: string) {
    && r.sourceFile == fileName
    && r.httpMethod in ["GET", "POST", "PUT", "DELETE", "PATCH"]
    && NoDuplicates(r.parameters)
    && (forall p :: p in r.parameters ==> WellPlaced(p))
    && (forall x :: x in r.responses ==> x.description == "Generated response")
  }

  lemma RouteOfShape(site: Site, fileName: string)
    requires IsExpressRoute(site.node)
    ensures RouteShaped(RouteOf(site, fileName), fileName)
  {
    RouteOfVerb(site, fileName);
    RouteOfParameters(site, fileName);
    RouteOfResponses(site, fileName);
  }

  lemma RouteOfVerb(site: Site, fileName: string)
    requires IsExpressRoute(site.node)
    ensures RouteOf(site, fileName).httpMethod in ["GET", "POST", "PUT", "DELETE", "PATCH"]
    ensures RouteOf(site, fileName).sourceFile == fileName
  {
    UpperVerbs();
  }

  lemma RouteOfParameters(site: Site, fileName: string)
    requires IsExpressRoute(site.node)
    ensures NoDuplicates(RouteOf(site, fileName).parameters)
    ensures forall p :: p in RouteOf(site, fileName).parameters ==> WellPlaced(p)
    ensures forall p :: p in RouteOf(site, fileName).parameters <==>
      exists k :: 0 <= k < |HandlerNodesOf(site.node)| && p in ParamsAt(HandlerNodesOf(site.node)[k], HandlerParam(site.node, 0))
  {
    var call := site.node;
    DedupElements(CollectParams(HandlerNodesOf(call), HandlerParam(call, 0)));
    CollectParamsPlaced(HandlerNodesOf(call), HandlerParam(call, 0));
    CollectParamsMembers(HandlerNodesOf(call), HandlerParam(call, 0));
  }

  lemma RouteOfResponses(site: Site, fileName: string)
    requires IsExpressRoute(site.node)
    ensures forall x :: x in RouteOf(site, fileName).responses ==> x.description == "Generated response"
    ensures forall x :: x in RouteOf(site, fileName).responses <==>
      exists k :: 0 <= k < |HandlerNodesOf(site.node)| && x in ResponsesAt(HandlerNodesOf(site.node)[k], HandlerParam(site.node, 1))
  {
    CollectResponsesLabelled(HandlerNodesOf(site.node), HandlerParam(site.node, 1));
    CollectResponsesMembers(HandlerNodesOf(site.node), HandlerParam(site.node, 1));
  }

  lemma UpperVerbs()
    ensures ToUpper("get") == "GET" && ToUpper("post") == "POST" && ToUpper("put") == "PUT"
    ensures ToUpper("delete") == "DELETE" && ToUpper("patch") == "PATCH"
  {
    assert ToUpper("get") == "GET";
    assert ToUpper("post") == "POST";
    assert ToUpper("put") == "PUT";
    assert ToUpper("delete") == "DELETE";
    assert ToUpper("patch") == "PATCH";
  }

  /** A quoted literal loses exactly its quotes; text without quotes at its ends is kept. */
  lemma StripQuotesLiteral(q: char, v: string)
    requires IsQuote(q)
    ensures StripQuotes([q] + v + [q]) == v
  {
  }

  lemma StripQuotesUnquoted(s: string)
    requires s == [] || (!IsQuote(s[0]) && !IsQuote(s[|s| - 1]))
    ensures StripQuotes(s) == s
  {
  }

  /** A route whose handler is not an inline function (a reference such as
      `ProjectController.getOne`) has no parameters and no responses; the path comes from the
      literal with its quotes removed, whatever the receiver. */
  lemma NamedHandlerRoute(receiver: Node, verb: string, q: char, path: string, middle: seq<Node>, handler: Node, doc: string, fileName: string)
    requires verb in AllowedMethods && IsQuote(q) && !IsFunction(handler)
    ensures var call := Call(PropertyAccess(receiver, verb), [StringLiteral(q, path)] + middle + [handler]);
      IsExpressRoute(call) &&
      RouteOf(Site(call, doc), fileName) == ParsedRoute(ToUpper(verb), path, fileName, doc, [], [])
  {
    var call := Call(PropertyAccess(receiver, verb), [StringLiteral(q, path)] + middle + [handler]);
    assert call.args[0] == StringLiteral(q, path);
    StripQuotesLiteral(q, path);
  }

  /** `use` and `all` calls are never routes, nor are calls with fewer than two arguments. */
  lemma NonRouteCalls(receiver: Node, name: string, args: seq<Node>)
    requires name == "use" || name == "all" || |args| < 2
    ensures !IsExpressRoute(Call(PropertyAccess(receiver, name), args))
  {
  }

  /** The path argument plays no part in the parameters or responses: they are read from the
      handler only, never from `:name` segments of the path. */
  lemma ParametersIgnorePath(callee: Node, path1: Node, path2: Node, rest: seq<Node>, doc: string, fileName: string)
    requires callee.PropertyAccess? && callee.name in AllowedMethods && |rest| >= 1
    ensures var r1 := RouteOf(Site(Call(callee, [path1] + rest), doc), fileName);
            var r2 := RouteOf(Site(Call(callee, [path2] + rest), doc), fileName);
            r1.parameters == r2.parameters && r1.responses == r2.responses
  {
    var c1, c2 := Call(callee, [path1] + rest), Call(callee, [path2] + rest);
    assert c1.args[|c1.args| - 1] == c2.args[|c2.args| - 1];
    assert HandlerNodesOf(c1) == HandlerNodesOf(c2);
    assert HandlerParam(c1, 0) == HandlerParam(c2, 0) && HandlerParam(c1, 1) == HandlerParam(c2, 1);
    assert RouteParameters(c1) == RouteParameters(c2) && RouteResponses(c1) == RouteResponses(c2);
  }

  /** Responses are collected, not de-duplicated: visiting two runs of nodes one after the
      other yields the responses of the first followed by those of the second. */
  lemma {:induction false} ResponsesAppend(a: seq<Node>, b: seq<Node>, res: Option<string>)
    ensures CollectResponses(a + b, res) == CollectResponses(a, res) + CollectResponses(b, res)
  {
    if b != [] {
      assert (a + b)[..|a + b| - 1] == a + b[..|b| - 1];
      ResponsesAppend(a, b[..|b| - 1], res);
    } else {
      assert a + b == a;
    }
  }
}
