// A model that passes every check of check_model except for the binding traversal, which reports a recursion although
// the call graph has no edge: a call of d::f passes a graph that calls d::f.

module RecursionExample {
  import opened Basics
  import opened Onnx
  import opened Opsets
  import opened FunctionCycles
  import opened CallGraphs
  import opened OperatorChecks
  import opened Scopes
  import opened Binding
  import opened BindingSafety
  import opened BindingExactness
  import opened ModelChecks

  function Ref(name: string, target: string): Attribute {
    Attribute(name, target, false, "", None, [])
  }

  function Text(name: string, text: string): Attribute {
    Attribute(name, "", true, text, None, [])
  }

  function Nested(name: string, g: Graph): Attribute {
    Attribute(name, "", false, "", Some(g), [])
  }

  function Plain(name: string, nodes: seq<Node>): Graph {
    Graph(name, [], [], [], [], [], [], nodes)
  }

  const OPSETS := [OpsetImport("", 13), OpsetImport("ai.rt", 1), OpsetImport("d", 1)]
  const IMPORTS: Imports := map["" := 13, "ai.rt" := 1, "d" := 1]

  // The body of d::f hands its attribute "body" to an operator of its own domain, and its default "scale" to a
  // quantization.
  const HOLD := Node("d", "Hold", "", [], ["y"], [Ref("held", "body")])
  const QUANTIZE := Node("ai.rt", "Quantize", "", [], ["q"], [Ref("parameter_ref", "scale")])
  const F := Function("d", "f", "", [], ["y"], ["body"], [Text("scale", "s")], OPSETS, [], [HOLD, QUANTIZE])

  // No operator in sight has a schema: d::Hold and ai.rt::Quantize belong to custom domains.
  function Schemas(op: string, version: int, domain: string): Option<Schema> {
    None
  }

  const CHECKER := Checker(Schemas, {"s"}, false, false, 10, (n, version) => false, (g, main) => true,
                           (n, main) => true, f => true)
  const CONTEXT := CHECKER.ContextFor([F])

  // The call with a graph without nodes, and the model whose graph passes that call.
  const CALL := Node("d", "f", "", [], ["y"], [Nested("body", Plain("g", []))])
  const MODEL := Model(Plain("main", [SelfCall(CALL, 0)]), [F])

  // ----- identifiers and imports -----

  lemma {:induction false} Identifiers()
    ensures FunctionImplId(F) == "d::f" && CalleeId(CALL) == "d::f"
    ensures CalleeId(HOLD) == "d::Hold" && CalleeId(QUANTIZE) == "ai.rt::Quantize"
    ensures CONTEXT.Keys() == map["d::f" := 0] && DistinctIds([F])
  {
    assert NormalizeDomain("d") + "::" + "f" + "" == "d::f";
    assert NormalizeDomain("d") + "::" + "Hold" + "" == "d::Hold";
    assert NormalizeDomain("ai.rt") + "::" + "Quantize" + "" == "ai.rt::Quantize";
    var ids := Ids([F]);
    assert ids[0] == FunctionImplId(F);
    assert ids == ["d::f"] && ids[..0] == [];
    assert Positions(ids[..0]) == map[];
    assert Positions(ids) == Positions(ids[..0])[ids[0] := 0];
    assert |"d::Hold"| != |"d::f"| && |"ai.rt::Quantize"| != |"d::f"|;
  }

  lemma {:induction false} OpsetsFit()
    ensures ImportsOf(OPSETS, false) == Some(IMPORTS) && ImportsOf(OPSETS, true).Some? && InRange(F)
  {
    assert OPSETS[..2][..1] == OPSETS[..1] && OPSETS[..1][..0] == [];
    assert ImportsOf(OPSETS[..0], false) == Some(map[]) && ImportsOf(OPSETS[..0], true) == Some(map[]);
    assert ImportsOf(OPSETS[..1], false) == Some(map["" := 13]);
    assert ImportsOf(OPSETS[..2], false) == Some(map["" := 13, "ai.rt" := 1]);
    ImportsFit(OPSETS, true);
  }

  lemma {:induction false} MergeAddsNothing()
    ensures Merge(IMPORTS, AllOpsets([F])) == Some(IMPORTS)
  {
    assert [F][..0] == [] && AllOpsets([F]) == OPSETS;
    assert OPSETS[..2][..1] == OPSETS[..1] && OPSETS[..1][..0] == [];
    assert VersionForDomain("", IMPORTS) == 13 &&
      VersionForDomain("ai.rt", IMPORTS) == VersionForDomain("d", IMPORTS) == 1;
    assert Merge(IMPORTS, OPSETS[..0]) == Some(IMPORTS);
    assert Merge(IMPORTS, OPSETS[..1]) == Some(IMPORTS);
    assert Merge(IMPORTS, OPSETS[..2]) == Some(IMPORTS);
  }

  // ----- the model passes all other checks -----

  lemma {:induction false} NothingIsCalled()
    ensures VersionsInRange([F]) && Acyclic(CallGraphOf([F], Schemas))
  {
    OpsetsFit();
    Identifiers();
    var g, site := CallGraphOf([F], Schemas), SiteOf([F], Schemas, 0);
    assert site.byKey == CONTEXT.Keys();
    assert F.nodes[1..] == [QUANTIZE] && F.nodes[2..] == [] && [QUANTIZE][1..] == [];
    assert HOLD.attributes[1..] == [] && QUANTIZE.attributes[1..] == [] && F.attributeProtos[1..] == [];
    assert NodeCallees(HOLD, site) == {} && NodeCallees(QUANTIZE, site) == {};
    assert NodesCallees([QUANTIZE], site) == {};
    assert FunctionCallees(F, site) == {};
    assert forall k | k in g :: g[k] == {};
    RankedGraphIsAcyclic(g, [0]);
  }

  lemma {:induction false} BodyIsCompatible()
    ensures BodyCompatible(F, Schemas, IMPORTS)
  {
    OpsetsFit();
    forall i | 0 <= i < |F.nodes| ensures CheckOpsetCompatibility(F.nodes[i], Schemas, IMPORTS, IMPORTS).Accepted() {
      assert F.nodes[i] == HOLD || F.nodes[i] == QUANTIZE;
    }
  }

  lemma {:induction false} OneAttribute(xs: seq<Attribute>, a: Attribute, s: Settings, visible: set<string>)
    requires xs == [a] && a.graphs == [] && a.name != ""
    ensures AttributesWellFormed(xs, s) <==> (a.g.Some? ==> GraphWellFormed(a.g.value, s.Nested()))
    ensures AttributesScoped(xs, visible) <==> (a.g.Some? ==> GraphScoped(a.g.value, visible))
    ensures Unique(AttributeNames(xs), {""})
  {
    assert xs[1..] == [];
    assert AttributeNames(xs) == [a.name] && [a.name][1..] == [];
  }

  // The context of a node at some depth of this model.
  ghost predicate Here(s: Settings) {
    s == CHECKER.SettingsFor(IMPORTS, [F]) || s == CHECKER.SettingsFor(IMPORTS, [F]).Nested()
  }

  // Nothing else is asked of a node without a schema in an imported custom domain.
  lemma {:induction false} CustomNode(n: Node, s: Settings)
    requires Here(s) && n.domain in {"d", "ai.rt"}
    ensures OperatorAllowed(n, s.imports, s.operators) && s.payloadOk(n, s.isMainGraph)
  {
    assert |"d"| == 1 && |"ai.rt"| == 5 && |""| == 0 && |"ai.onnx.ml"| == 10 && |"ai.onnx.training"| == 16;
    assert |"ai.onnx"| == 7 && |"onnx.ai"| == 7;
    assert SchemaDomain(n.domain) == n.domain && n.domain !in BUILT_IN_DOMAINS;
  }

  lemma {:induction false} BodyIsWellFormed(s: Settings)
    requires Here(s)
    ensures NodesWellFormed(F.nodes, s)
  {
    assert F.nodes[1..] == [QUANTIZE] && [QUANTIZE][1..] == [];
    OneAttribute(HOLD.attributes, Ref("held", "body"), s, {});
    OneAttribute(QUANTIZE.attributes, Ref("parameter_ref", "scale"), s, {});
    CustomNode(HOLD, s);
    CustomNode(QUANTIZE, s);
    assert NodeWellFormed(HOLD, s) && NodeWellFormed(QUANTIZE, s);
    assert NodesWellFormed([QUANTIZE], s);
  }

  lemma {:induction false} BodyIsScoped(s: Settings)
    requires Here(s)
    ensures NodesScoped(F.nodes, {}, {}, Names(F.inputs))
  {
    assert F.nodes[1..] == [QUANTIZE] && [QUANTIZE][1..] == [];
    OneAttribute(HOLD.attributes, Ref("held", "body"), s, {});
    OneAttribute(QUANTIZE.attributes, Ref("parameter_ref", "scale"), s, {} + Names(["y"]));
    assert NonEmpty(HOLD.inputs) == [] && Names([]) == {};
    assert {} + Names(F.inputs) == {};
    assert NodeScoped(HOLD, {}, {});
    assert {} + Names(NonEmpty(HOLD.outputs)) == Names(["y"]);
    assert NodeScoped(QUANTIZE, {} + Names(["y"]), {} + Names(["y"]));
  }

  lemma {:induction false} LocalFunctionsPass()
    ensures LocalFunctionsAccepted([F], IMPORTS, CHECKER, {})
  {
    Identifiers();
    OpsetsFit();
    MergeAddsNothing();
    NothingIsCalled();
    BodyIsCompatible();
    BodyIsWellFormed(CHECKER.SettingsFor(IMPORTS, [F]));
    BodyIsScoped(CHECKER.SettingsFor(IMPORTS, [F]));
    assert F.outputs[1..] == [] && F.attributes[1..] == [];
    assert FunctionAccepted(F, CHECKER.SettingsFor(IMPORTS, [F]), {});
    assert LocalFunctionAccepted(F, [F], IMPORTS, CHECKER, {});
  }

  lemma {:induction false} CallPasses(n: Node, body: Graph, s: Settings)
    requires Here(s) && n == CALL.(attributes := [Nested("body", body)])
    requires GraphWellFormed(body, s.Nested()) && GraphScoped(body, {})
    ensures NodesWellFormed([n], s) && NodesScoped([n], {}, {}, {})
  {
    assert [n][1..] == [];
    OneAttribute(n.attributes, Nested("body", body), s, {});
    CustomNode(n, s);
    assert NonEmpty(n.inputs) == [] && Names([]) == {} && Names([]) + Names([]) == {};
    assert NodeWellFormed(n, s) && NodeScoped(n, {}, {});
  }

  lemma {:induction false} PlainGraphPasses(g: Graph, nodes: seq<Node>, name: string, s: Settings)
    requires Here(s) && g == Plain(name, nodes) && name != ""
    requires NodesWellFormed(nodes, s) && NodesScoped(nodes, {}, {}, {})
    ensures GraphWellFormed(g, s) && GraphScoped(g, {})
  {
    assert InputNames(g) == [] && AllInitializers(g) == [] && InitializerNames(AllInitializers(g)) == [];
    assert Declared(g) == {};
  }

  lemma {:induction false} GraphPasses(s: Settings)
    requires Here(s)
    ensures GraphWellFormed(MODEL.graph, s) && GraphScoped(MODEL.graph, {})
  {
    var t := s.Nested();
    PlainGraphPasses(Plain("g", []), [], "g", t);
    CallPasses(CALL, Plain("g", []), t);
    PlainGraphPasses(Plain("g", [CALL]), [CALL], "g", t);
    assert SelfCall(CALL, 0).attributes == [Nested("body", Plain("g", [CALL]))];
    CallPasses(SelfCall(CALL, 0), Plain("g", [CALL]), s);
    PlainGraphPasses(MODEL.graph, MODEL.graph.nodes, "main", s);
  }

  // ----- the binding traversal -----

  // The call with the empty graph binds: the body becomes a node with that graph and a quantization by "s".
  lemma {:induction false} CallAttributesAre()
    ensures CallAttributes(F, CALL) == map["scale" := Text("scale", "s"), "body" := CALL.attributes[0]]
  {
    var xs := F.attributeProtos + CALL.attributes;
    assert xs == [Text("scale", "s"), CALL.attributes[0]];
    assert xs[..1] == [Text("scale", "s")] && xs[..1][..0] == [];
    assert ByName(xs[..1][..0]) == map[];
    assert ByName(xs[..1]) == map["scale" := Text("scale", "s")];
  }

  const HOLD_BOUND := HOLD.(attributes := [Nested("held", Plain("g", []))])
  const QUANTIZE_BOUND := QUANTIZE.(attributes := [Text("parameter_ref", "s")])

  lemma {:induction false} BoundBodyIs()
    ensures BindNodes(F.nodes, CallAttributes(F, CALL)) == [HOLD_BOUND, QUANTIZE_BOUND]
  {
    CallAttributesAre();
    var m := CallAttributes(F, CALL);
    assert F.nodes[1..] == [QUANTIZE] && [QUANTIZE][1..] == [];
    assert HOLD.attributes[1..] == [] && QUANTIZE.attributes[1..] == [];
    assert BindAttributes(HOLD.attributes, m) == HOLD_BOUND.attributes;
    assert BindAttributes(QUANTIZE.attributes, m) == QUANTIZE_BOUND.attributes;
    assert BindNodes([QUANTIZE], m) == [QUANTIZE_BOUND];
  }

  lemma {:induction false} TwoNodes(a: Node, b: Node)
    ensures AllNodes([a, b]) == {a} + AttributesNodes(a.attributes) + ({b} + AttributesNodes(b.attributes))
  {
    assert [a, b][1..] == [b] && [b][1..] == [];
    assert AllNodes([b]) == {b} + AttributesNodes(b.attributes);
  }

  lemma {:induction false} BoundBodyIsClean(imports: Imports)
    ensures NodesFinding([HOLD_BOUND, QUANTIZE_BOUND], BOUND, imports, {"d::f"}, CONTEXT).Clean?
  {
    Identifiers();
    var ns := [HOLD_BOUND, QUANTIZE_BOUND];
    TwoNodes(HOLD_BOUND, QUANTIZE_BOUND);
    NoAttributeNodes(HOLD_BOUND.attributes);
    NoAttributeNodes(QUANTIZE_BOUND.attributes);
    assert AllNodes(ns) == {HOLD_BOUND, QUANTIZE_BOUND};
    assert CalleeId(HOLD_BOUND) == CalleeId(HOLD) && CalleeId(QUANTIZE_BOUND) == CalleeId(QUANTIZE);
    NodesFindingMeaning(ns, BOUND, imports, {"d::f"}, CONTEXT);
  }

  lemma {:induction false} CallBindsEmptyGraph()
    ensures PassesEmptyGraph(CALL, 0, IMPORTS, CONTEXT)
  {
    Identifiers();
    OpsetsFit();
    CallAttributesAre();
    BoundBodyIs();
    BoundBodyIsClean(ImportsOf(F.opsetImports, true).value);
    NoAttributeNodes(CALL.attributes);
    assert [CALL][1..] == [] && AllNodes([CALL]) == {CALL};
    assert CONTEXT.FunctionOf("d::f") == F;
    assert {} + {"d::f"} == {"d::f"};
    assert CallBinds(CALL, {}, CONTEXT);
    NodesFindingMeaning([CALL], BOUND, IMPORTS, {}, CONTEXT);
  }

  lemma {:induction false} BodyIsForwarded()
    ensures "body" in Forwarded(F)
  {
    assert HOLD in Visits(F.nodes, true) && Ref("held", "body") in HOLD.attributes;
  }

  lemma {:induction false} FunctionReferences()
    ensures AllValid([F], CONTEXT) && SomeFunctionRefers([F])
  {
    OpsetsFit();
    NoAttributeNodes(HOLD.attributes);
    NoAttributeNodes(QUANTIZE.attributes);
    TwoNodes(HOLD, QUANTIZE);
    assert AllNodes(F.nodes) == {HOLD, QUANTIZE};
    assert RefersToAttribute(QUANTIZE, QUANTIZE.attributes[0]) && F in [F];
    assert SomeRefers(AllNodes(F.nodes));
    assert FunctionValid(F, CONTEXT);
  }

  // The model passes the checks of its functions and of its graph, its call graph has no edge, and yet the traversal
  // reports it as recursive.
  lemma {:induction false} AcceptedFunctionsCanRecurse()
    ensures StartImports(CHECKER.irVersion, OPSETS) == Some(IMPORTS)
    ensures LocalFunctionsAccepted(MODEL.functions, IMPORTS, CHECKER, {})
    ensures GraphWellFormed(MODEL.graph, CHECKER.SettingsFor(IMPORTS, [F])) && GraphScoped(MODEL.graph, {})
    ensures VersionsInRange([F]) && Acyclic(CallGraphOf([F], Schemas))
    ensures !NotRecursive(ModelFinding(MODEL.graph, IMPORTS, CHECKER.ContextFor(MODEL.functions)))
  {
    OpsetsFit();
    assert "" in IMPORTS;
    LocalFunctionsPass();
    GraphPasses(CHECKER.SettingsFor(IMPORTS, [F]));
    NothingIsCalled();
    Identifiers();
    assert CONTEXT.FunctionOf("d::f") == F;
    CallBindsEmptyGraph();
    BodyIsForwarded();
    FunctionReferences();
    SelfCallModelIsReported(MODEL.graph, CALL, 0, IMPORTS, CONTEXT);
  }
}
