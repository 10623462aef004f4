// A model that passes every check of check_model, and whose graph gets stuck once the call of its function is unfolded:
// the function declares an output that its body does not produce.

module UnproducedOutputs {
  import opened Basics
  import opened Onnx
  import opened Opsets
  import opened FunctionCycles
  import opened CallGraphs
  import opened OperatorChecks
  import opened Scopes
  import opened Binding
  import opened BindingSafety
  import opened Evaluation
  import opened CallUnfolding
  import opened ModelChecks

  const OPSETS := [OpsetImport("d", 1)]
  const IMPORTS: Imports := map["d" := 1]

  const F := Function("d", "f", "", [], ["y"], [], [], OPSETS, [], [])
  const CALL := Node("d", "f", "", [], ["y"], [])
  const MODEL := Model(Graph("main", [], [], [], [], [], [], [CALL]), [F])

  const CHECKER := Checker((op, version, domain) => None, {}, false, false, 10, (n, version) => false,
                           (g, main) => true, (n, main) => true, f => true)
  const CONTEXT := CHECKER.ContextFor([F])

  lemma {:induction false} Identifiers()
    ensures CalleeId(CALL) == FunctionImplId(F) && DistinctIds([F])
    ensures CONTEXT.Keys() == map[CalleeId(CALL) := 0]
  {
    var ids := Ids([F]);
    assert ids[0] == FunctionImplId(F);
    assert ids == [FunctionImplId(F)] && ids[..0] == [];
    assert Positions(ids[..0]) == map[];
    assert Positions(ids) == Positions(ids[..0])[ids[0] := 0];
  }

  lemma {:induction false} OpsetsFit()
    ensures StartImports(10, OPSETS) == Some(IMPORTS) && ImportsOf(OPSETS, false) == Some(IMPORTS) && InRange(F)
    ensures Merge(IMPORTS, AllOpsets([F])) == Some(IMPORTS)
  {
    assert OPSETS[..0] == [] && [F][..0] == [] && AllOpsets([F]) == OPSETS;
    assert ImportsOf(OPSETS[..0], false) == Some(map[]);
    assert "d" in IMPORTS && IMPORTS != map[];
    ImportsFit(OPSETS, true);
    assert Merge(IMPORTS, OPSETS[..0]) == Some(IMPORTS) && VersionForDomain("d", IMPORTS) == 1;
  }

  lemma {:induction false} FunctionPasses()
    ensures LocalFunctionsAccepted([F], IMPORTS, CHECKER, {}) && Ranked(CONTEXT, [0])
  {
    Identifiers();
    OpsetsFit();
    assert FunctionCallees(F, SiteOf([F], CHECKER.registry, 0)) == {};
    RankedGraphIsAcyclic(CallGraphOf([F], CHECKER.registry), [0]);
    assert ["y"][1..] == [];
    assert FunctionAccepted(F, CHECKER.SettingsFor(IMPORTS, [F]), {});
    assert LocalFunctionAccepted(F, [F], IMPORTS, CHECKER, {});
  }

  lemma {:induction false} GraphPasses(s: Settings)
    requires s == CHECKER.SettingsFor(IMPORTS, [F])
    ensures GraphWellFormed(MODEL.graph, s) && GraphScoped(MODEL.graph, {})
  {
    var g := MODEL.graph;
    assert InputNames(g) == [] && AllInitializers(g) == [] && InitializerNames(AllInitializers(g)) == [];
    assert InitializerNames(g.initializers) == [] && Names([]) == {} && Declared(g) == {};
    assert ["y"][1..] == [] && NonEmpty(CALL.outputs) == ["y"] && NonEmpty(CALL.inputs) == [];
    assert AttributeNames(CALL.attributes) == [] && g.nodes[1..] == [];
    assert NodeWellFormed(CALL, s) && NodeScoped(CALL, {}, {});
  }

  lemma {:induction false} NodesAreCalls()
    ensures AllNodes(MODEL.graph.nodes) == {CALL} && AllNodes(F.nodes) == {}
  {
    assert MODEL.graph.nodes[1..] == [] && AttributesNodes(CALL.attributes) == {};
  }

  lemma {:induction false} NothingIsReferred()
    ensures ModelFinding(MODEL.graph, IMPORTS, CONTEXT).Clean?
  {
    OpsetsFit();
    NodesAreCalls();
    ModelFindingMeaning(MODEL.graph, IMPORTS, CONTEXT);
    assert !SomeRefers(AllNodes(F.nodes));
    assert FunctionValid(F, CONTEXT);
  }

  // The call takes "y", and nothing produces it.
  lemma {:induction false} CallIsNotSupplied(called: set<Func>)
    requires VersionsInRange([F])
    ensures !AllSupplied(CONTEXT, IMPORTS, MODEL.graph.nodes, called)
  {
    Identifiers();
    NodesAreCalls();
    assert CALL in AllNodes(MODEL.graph.nodes) && CONTEXT.IsLocalCall(CALL, IMPORTS) && Callee(CALL, CONTEXT) == 0;
    assert Names(F.inputs) == {} && Produced(F) == {};
    assert !Takes(CALL, F, {}) by {
      assert CALL.outputs[0] != "";
    }
  }

  // The model is accepted, and evaluation with the call unfolded gets stuck for every meaning of the operators.
  lemma {:induction false} AcceptedModelsCanGetStuck<V(!new)>(S: Semantics<V>)
    ensures ModelAccepted(MODEL, OPSETS, CHECKER) && Ranked(CONTEXT, [0])
    ensures EvalGraph(Unfold(S, CONTEXT, [0], 1, IMPORTS, []), MODEL.graph, map[], []).Stuck?
  {
    OpsetsFit();
    FunctionPasses();
    GraphPasses(CHECKER.SettingsFor(IMPORTS, [F]));
    NothingIsReferred();
    AcceptedModelsUnfold(S, MODEL, OPSETS, CHECKER, [0], []);
    forall called ensures !AllSupplied(CONTEXT, IMPORTS, MODEL.graph.nodes, called) {
      CallIsNotSupplied(called);
    }
  }
}
