// The call graph of the model-local functions, collected by a worklist over nested subgraphs, and the check that it
// has no cycle (onnx_lib/checker.cc).

module CallGraphs {
  import opened Basics
  import opened Onnx
  import opened Opsets
  import opened FunctionCycles

  const MAX_MODEL_LOCAL_FUNCTIONS := 10000

  // ----- callees by recursive descent -----

  // What a call needs to be resolved: the functions by identifier, the imports of the enclosing function, the schemas.
  datatype Site = Site(byKey: map<string, Func>, imports: Imports, registry: Registry)

  // A node calls a local function when its identifier names one and no operator schema takes precedence.
  function Calls(n: Node, site: Site): set<Func> {
    if CalleeId(n) in site.byKey && !HasOperatorSchema(n, site.imports, site.registry)
    then {site.byKey[CalleeId(n)]}
    else {}
  }

  function NodeCallees(n: Node, site: Site): set<Func>
    decreases n, 1
  {
    Calls(n, site) + AttributesCallees(n.attributes, site)
  }

  function NodesCallees(ns: seq<Node>, site: Site): set<Func>
    decreases ns, 0
  {
    if ns == [] then {} else NodeCallees(ns[0], site) + NodesCallees(ns[1..], site)
  }

  function AttributesCallees(xs: seq<Attribute>, site: Site): set<Func>
    decreases xs, 0
  {
    if xs == [] then {} else AttributeCallees(xs[0], site) + AttributesCallees(xs[1..], site)
  }

  function AttributeCallees(a: Attribute, site: Site): set<Func>
    decreases a, 1
  {
    (if a.g.Some? then NodesCallees(a.g.value.nodes, site) else {}) + GraphsCallees(a.graphs, site)
  }

  function GraphsCallees(gs: seq<Graph>, site: Site): set<Func>
    decreases gs, 0
  {
    if gs == [] then {} else NodesCallees(gs[0].nodes, site) + GraphsCallees(gs[1..], site)
  }

  function FunctionCallees(f: Function, site: Site): set<Func> {
    NodesCallees(f.nodes, site) + AttributesCallees(f.attributeProtos, site)
  }

  // The node names function `k`, and no schema is registered for its operator at the version that it resolves to.
  predicate NamesUnregistered(n: Node, site: Site, k: Func) {
    && CalleeId(n) in site.byKey && site.byKey[CalleeId(n)] == k
    && var version := VersionForDomain(n.domain, site.imports);
       version < 0 || site.registry(n.opType, version, SchemaDomain(n.domain)).None?
  }

  ghost predicate SomeNames(nodes: set<Node>, site: Site, k: Func) {
    exists n :: n in nodes && NamesUnregistered(n, site, k)
  }

  // The callees of a function are what the nodes at every depth of its body and of its default attributes name without
  // a schema.
  lemma {:induction false} CalleesExactly(f: Function, site: Site, k: Func)
    ensures k in FunctionCallees(f, site) <==>
      exists n :: n in AllNodes(f.nodes) + AttributesNodes(f.attributeProtos) && NamesUnregistered(n, site, k)
  {
    NodesCalleesExactly(f.nodes, site, k);
    AttributesCalleesExactly(f.attributeProtos, site, k);
  }

  lemma {:induction false} NodesCalleesExactly(ns: seq<Node>, site: Site, k: Func)
    ensures k in NodesCallees(ns, site) <==> SomeNames(AllNodes(ns), site, k)
    decreases ns, 0
  {
    if ns != [] {
      AttributesCalleesExactly(ns[0].attributes, site, k);
      NodesCalleesExactly(ns[1..], site, k);
      assert k in NodeCallees(ns[0], site) <==>
        NamesUnregistered(ns[0], site, k) || SomeNames(AttributesNodes(ns[0].attributes), site, k);
    }
  }

  lemma {:induction false} AttributesCalleesExactly(xs: seq<Attribute>, site: Site, k: Func)
    ensures k in AttributesCallees(xs, site) <==> SomeNames(AttributesNodes(xs), site, k)
    decreases xs, 0
  {
    if xs != [] {
      if xs[0].g.Some? {
        NodesCalleesExactly(xs[0].g.value.nodes, site, k);
      }
      GraphsCalleesExactly(xs[0].graphs, site, k);
      AttributesCalleesExactly(xs[1..], site, k);
      assert k in AttributeCallees(xs[0], site) <==> SomeNames(AttributeNodes(xs[0]), site, k);
    }
  }

  lemma {:induction false} GraphsCalleesExactly(gs: seq<Graph>, site: Site, k: Func)
    ensures k in GraphsCallees(gs, site) <==> SomeNames(GraphsNodes(gs), site, k)
    decreases gs, 0
  {
    if gs != [] {
      NodesCalleesExactly(gs[0].nodes, site, k);
      GraphsCalleesExactly(gs[1..], site, k);
    }
  }

  lemma {:induction false} NodesCalleesConcat(a: seq<Node>, b: seq<Node>, site: Site)
    ensures NodesCallees(a + b, site) == NodesCallees(a, site) + NodesCallees(b, site)
  {
    if a == [] {
      assert a + b == b;
    } else {
      assert (a + b)[1..] == a[1..] + b;
      NodesCalleesConcat(a[1..], b, site);
    }
  }

  // ----- the worklist -----

  // The nodes that collect_graphs pushes for a list of graphs, and for a list of attributes.
  function GraphNodes(gs: seq<Graph>): seq<Node> {
    if gs == [] then [] else gs[0].nodes + GraphNodes(gs[1..])
  }

  function ChildNodes(xs: seq<Attribute>): seq<Node> {
    if xs == [] then [] else GraphNodes(Bodies(xs[0])) + ChildNodes(xs[1..])
  }

  lemma {:induction false} GraphNodesMeaning(gs: seq<Graph>, site: Site)
    ensures NodesCallees(GraphNodes(gs), site) == GraphsCallees(gs, site)
    ensures NodesSize(GraphNodes(gs)) <= GraphsSize(gs)
  {
    if gs != [] {
      GraphNodesMeaning(gs[1..], site);
      NodesCalleesConcat(gs[0].nodes, GraphNodes(gs[1..]), site);
      NodesSizeConcat(gs[0].nodes, GraphNodes(gs[1..]));
    }
  }

  lemma {:induction false} ChildNodesMeaning(xs: seq<Attribute>, site: Site)
    ensures NodesCallees(ChildNodes(xs), site) == AttributesCallees(xs, site)
    ensures NodesSize(ChildNodes(xs)) <= AttributesSize(xs)
  {
    if xs != [] {
      var a := xs[0];
      ChildNodesMeaning(xs[1..], site);
      GraphNodesMeaning(Bodies(a), site);
      NodesCalleesConcat(GraphNodes(Bodies(a)), ChildNodes(xs[1..]), site);
      NodesSizeConcat(GraphNodes(Bodies(a)), ChildNodes(xs[1..]));
      BodiesSize(a);
      if a.g.Some? {
        assert Bodies(a)[1..] == a.graphs;
      } else {
        assert Bodies(a) == a.graphs;
      }
    }
  }

  lemma {:induction false} BodiesNodes(a: Attribute)
    ensures GraphNodes(Bodies(a)) == (if a.g.Some? then a.g.value.nodes else []) + GraphNodes(a.graphs)
  {
    if a.g.Some? {
      assert Bodies(a)[0] == a.g.value && Bodies(a)[1..] == a.graphs;
    } else {
      assert Bodies(a) == a.graphs;
    }
  }

  method PushGraphs(pending: seq<Node>, graphs: seq<Graph>) returns (r: seq<Node>)
    ensures r == pending + GraphNodes(graphs)
  {
    r := pending;
    for j := 0 to |graphs|
      invariant r + GraphNodes(graphs[j..]) == pending + GraphNodes(graphs)
    {
      assert graphs[j..][0] == graphs[j] && graphs[j..][1..] == graphs[j + 1..];
      r := r + graphs[j].nodes;
    }
    assert graphs[|graphs|..] == [];
  }

  // One turn of the outer loop of `collect_graphs`.
  method PushBodies(pending: seq<Node>, a: Attribute) returns (r: seq<Node>)
    ensures r == pending + GraphNodes(Bodies(a))
  {
    r := pending;
    BodiesNodes(a);
    if a.g.Some? {
      r := r + a.g.value.nodes;
      Associative(pending, a.g.value.nodes, GraphNodes(a.graphs));
    }
    r := PushGraphs(r, a.graphs);
  }

  // The lambda `collect_graphs`: pushes the nodes of every graph of the attributes.
  method CollectGraphs(pending: seq<Node>, attributes: seq<Attribute>) returns (r: seq<Node>)
    ensures r == pending + ChildNodes(attributes)
  {
    r := pending;
    for i := 0 to |attributes|
      invariant r + ChildNodes(attributes[i..]) == pending + ChildNodes(attributes)
    {
      assert attributes[i..][0] == attributes[i] && attributes[i..][1..] == attributes[i + 1..];
      Associative(r, GraphNodes(Bodies(attributes[i])), ChildNodes(attributes[i + 1..]));
      r := PushBodies(r, attributes[i]);
    }
    assert attributes[|attributes|..] == [];
  }

  // The callees of one function: those of recursive descent, whatever is on the stack when.
  method CollectCallees(f: Function, site: Site) returns (callees: set<Func>)
    ensures callees == FunctionCallees(f, site)
  {
    callees := {};
    var pending := f.nodes;
    ChildNodesMeaning(f.attributeProtos, site);
    NodesCalleesConcat(pending, ChildNodes(f.attributeProtos), site);
    pending := CollectGraphs(pending, f.attributeProtos);
    while pending != []
      invariant callees + NodesCallees(pending, site) == FunctionCallees(f, site)
      decreases NodesSize(pending)
    {
      var node := pending[|pending| - 1];
      ghost var below := pending[..|pending| - 1];
      assert pending == below + [node];
      NodesCalleesConcat(below, [node], site);
      NodesSizeConcat(below, [node]);
      pending := pending[..|pending| - 1];
      if CalleeId(node) in site.byKey {
        if !HasOperatorSchema(node, site.imports, site.registry) {
          callees := callees + {site.byKey[CalleeId(node)]};
        }
      }
      ChildNodesMeaning(node.attributes, site);
      NodesCalleesConcat(below, ChildNodes(node.attributes), site);
      NodesSizeConcat(below, ChildNodes(node.attributes));
      pending := CollectGraphs(pending, node.attributes);
    }
  }

  // ----- the whole check -----

  function Ids(functions: seq<Function>): (ids: seq<string>)
    ensures |ids| == |functions| && forall i | 0 <= i < |functions| :: ids[i] == FunctionImplId(functions[i])
  {
    seq(|functions|, i requires 0 <= i < |functions| => FunctionImplId(functions[i]))
  }

  ghost predicate DistinctIds(functions: seq<Function>) {
    Distinct(Ids(functions))
  }

  // Positions by identifier, as `emplace` records them: the first position of each identifier.
  function Positions(ids: seq<string>): map<string, Func> {
    if ids == [] then map[]
    else
      var n := |ids| - 1;
      var front := Positions(ids[..n]);
      if ids[n] in front then front else front[ids[n] := n]
  }

  lemma {:induction false} PositionsMeaning(ids: seq<string>)
    ensures forall k :: k in Positions(ids) <==> k in ids
    ensures forall k | k in Positions(ids) :: Positions(ids)[k] < |ids| && ids[Positions(ids)[k]] == k
  {
    if ids != [] {
      var n := |ids| - 1;
      PositionsMeaning(ids[..n]);
      assert ids == ids[..n] + [ids[n]];
    }
  }

  lemma {:induction false} PositionsInverse(ids: seq<string>, i: nat)
    requires Distinct(ids) && i < |ids|
    ensures ids[i] in Positions(ids) && Positions(ids)[ids[i]] == i
  {
    PositionsMeaning(ids);
  }

  lemma {:induction false} PositionsExtend(ids: seq<string>, i: nat)
    requires i < |ids| && Distinct(ids[..i])
    ensures ids[i] in Positions(ids[..i]) ==> !Distinct(ids)
    ensures ids[i] !in Positions(ids[..i]) ==>
      Distinct(ids[..i + 1]) && Positions(ids[..i + 1]) == Positions(ids[..i])[ids[i] := i]
  {
    PositionsMeaning(ids[..i]);
    assert ids[..i + 1] == ids[..i] + [ids[i]] && ids[..i + 1][..i] == ids[..i];
    if ids[i] in Positions(ids[..i]) {
      var j := Positions(ids[..i])[ids[i]];
      assert ids[j] == ids[i];
    }
  }

  function ByKey(functions: seq<Function>): map<string, Func> {
    Positions(Ids(functions))
  }

  method IndexFunctions(functions: seq<Function>) returns (r: Option<map<string, Func>>)
    ensures r.Some? <==> DistinctIds(functions)
    ensures r.Some? ==> r.value == ByKey(functions)
  {
    ghost var ids := Ids(functions);
    var byKey: map<string, Func> := map[];
    for i := 0 to |functions|
      invariant byKey == Positions(ids[..i]) && Distinct(ids[..i])
    {
      PositionsExtend(ids, i);
      var id := FunctionImplId(functions[i]);
      assert id == ids[i];
      if id in byKey {
        return None;
      }
      byKey := byKey[id := i];
    }
    assert ids[..|functions|] == ids;
    r := Some(byKey);
  }

  // The site of the nodes of function `i`; its imports are keyed by normalised domain.
  predicate InRange(f: Function) {
    ImportsOf(f.opsetImports, true).Some?
  }

  ghost predicate VersionsInRange(functions: seq<Function>) {
    forall i | 0 <= i < |functions| :: InRange(functions[i])
  }

  ghost function SiteOf(functions: seq<Function>, registry: Registry, i: nat): Site
    requires i < |functions| && InRange(functions[i])
  {
    Site(ByKey(functions), ImportsOf(functions[i].opsetImports, true).value, registry)
  }

  // At the site of a function, all names of the ONNX domain stand for the version that the function imports last under
  // any of them.
  lemma {:induction false} SiteVersions(functions: seq<Function>, registry: Registry, k: nat, i: nat, domain: string)
    requires k < |functions| && InRange(functions[k]) && i < |functions[k].opsetImports|
    requires {functions[k].opsetImports[i].domain, domain} <= {"", "ai.onnx", "onnx.ai"}
    requires forall j | i < j < |functions[k].opsetImports| ::
      functions[k].opsetImports[j].domain !in {"", "ai.onnx", "onnx.ai"}
    ensures VersionForDomain(domain, SiteOf(functions, registry, k).imports) == functions[k].opsetImports[i].version
  {
    LastOnnxImportWins(functions[k].opsetImports, i, domain);
  }

  ghost predicate Collected(functions: seq<Function>, registry: Registry, i: nat, callees: set<Func>) {
    && i < |functions| && InRange(functions[i])
    && callees == FunctionCallees(functions[i], SiteOf(functions, registry, i))
  }

  // The declarative call graph of the functions.
  ghost function CallGraphOf(functions: seq<Function>, registry: Registry): CallGraph
    requires VersionsInRange(functions)
  {
    map i: nat | i < |functions| :: FunctionCallees(functions[i], SiteOf(functions, registry, i))
  }

  lemma {:induction false} AllCollected(functions: seq<Function>, registry: Registry, graph: CallGraph)
    requires DistinctIds(functions)
    requires forall k | k in ByKey(functions) :: ByKey(functions)[k] in graph
    requires forall i: nat | i in graph :: Collected(functions, registry, i, graph[i])
    ensures VersionsInRange(functions) && graph == CallGraphOf(functions, registry)
  {
    forall i: nat | i < |functions| ensures i in graph && Collected(functions, registry, i, graph[i]) {
      var key := Ids(functions)[i];
      PositionsInverse(Ids(functions), i);
      assert key in ByKey(functions) && ByKey(functions)[key] == i;
    }
    forall i: nat | i < |functions| ensures InRange(functions[i]) {
      assert Collected(functions, registry, i, graph[i]);
    }
  }

  // Visits the functions in any order. None when an opset version is out of range.
  method BuildCallGraph(functions: seq<Function>, byKey: map<string, Func>, registry: Registry)
    returns (r: Option<CallGraph>)
    requires DistinctIds(functions) && byKey == ByKey(functions)
    ensures r.Some? <==> VersionsInRange(functions)
    ensures r.Some? ==> r.value == CallGraphOf(functions, registry)
  {
    var graph: CallGraph := map[];
    var keys := byKey.Keys;
    while keys != {}
      invariant keys <= byKey.Keys
      invariant forall k | k in byKey && k !in keys :: byKey[k] in graph
      invariant forall i: nat | i in graph :: Collected(functions, registry, i, graph[i])
      decreases keys
    {
      var key :| key in keys;
      keys := keys - {key};
      var f := byKey[key];
      assert f < |functions| by {
        PositionsMeaning(Ids(functions));
      }
      var imports := BuildImports(functions[f].opsetImports, true);
      if imports.None? {
        assert !InRange(functions[f]);
        return None;
      }
      var callees := CollectCallees(functions[f], Site(byKey, imports.value, registry));
      graph := graph[f := callees];
    }
    AllCollected(functions, registry, graph);
    r := Some(graph);
  }

  datatype CycleCheck = Passed | TooManyFunctions | DuplicateFunction | BadVersion | Failed(search: Outcome)

  // check_function_call_cycles. Passing means: the recursively described call graph has an order that puts callees
  // before callers. Failing in the search means a genuine recursion or a genuine chain of 101 functions.
  method CheckFunctionCallCycles(functions: seq<Function>, registry: Registry) returns (r: CycleCheck)
    ensures r.Passed? ==>
      DistinctIds(functions) && VersionsInRange(functions) && |functions| <= MAX_MODEL_LOCAL_FUNCTIONS
    ensures r.Passed? ==> Acyclic(CallGraphOf(functions, registry))
    ensures r.Passed? ==> exists order ::
      CalleesFirst(CallGraphOf(functions, registry), order) && forall i: nat | i < |functions| :: i in order
    ensures r.TooManyFunctions? <==> |functions| > 10000
    ensures r.DuplicateFunction? <==> |functions| <= MAX_MODEL_LOCAL_FUNCTIONS && !DistinctIds(functions)
    ensures r.BadVersion? <==>
      |functions| <= MAX_MODEL_LOCAL_FUNCTIONS && DistinctIds(functions) && !VersionsInRange(functions)
    ensures r.Failed? ==> VersionsInRange(functions) && !r.search.Accepted?
    ensures r.Failed? && r.search.CycleDetected? ==> IsCycle(CallGraphOf(functions, registry), r.search.ids)
    ensures r.Failed? && r.search.TooDeep? ==> exists w :: IsDeepChain(CallGraphOf(functions, registry), w)
    ensures r.Passed? ==> CanAccept(CallGraphOf(functions, registry))
    ensures r.Failed? ==> CanReject(CallGraphOf(functions, registry))
    ensures VersionsInRange(functions) && (forall w :: !IsDeepChain(CallGraphOf(functions, registry), w)) ==>
      (r.Passed? <==>
        |functions| <= MAX_MODEL_LOCAL_FUNCTIONS && DistinctIds(functions) && Acyclic(CallGraphOf(functions, registry)))
  {
    if |functions| > MAX_MODEL_LOCAL_FUNCTIONS {
      return TooManyFunctions;
    }
    var byKey := IndexFunctions(functions);
    if byKey.None? {
      return DuplicateFunction;
    }
    var graph := BuildCallGraph(functions, byKey.value, registry);
    if graph.None? {
      return BadVersion;
    }
    var outcome, order, rounds := SearchAllRoots(graph.value);
    if !outcome.Accepted? {
      return Failed(outcome);
    }
    forall i: nat | i < |functions| ensures i in order {
      assert i in graph.value.Keys && i in Elements(order);
    }
    r := Passed;
  }
}
