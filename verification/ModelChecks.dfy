// check_model: the checks of the local functions, of the references to quantization parameters and of the graph, one
// after the other (onnx_lib/checker.cc), and what acceptance by all of them means.

module ModelChecks {
  import opened Basics
  import opened Onnx
  import opened Opsets
  import opened FunctionCycles
  import opened CallGraphs
  import opened OperatorChecks
  import opened Scopes
  import opened Binding
  import opened BindingSafety
  import opened Evaluation
  import opened CallUnfolding

  const IR_VERSION := 14

  // What the checks are given besides the model.
  datatype Checker = Checker(
    registry: Registry,
    parameters: set<string>,
    skipOpsets: bool,
    checkCustomDomain: bool,
    irVersion: int,
    verifies: (Node, int) -> bool,
    graphOk: (Graph, bool) -> bool,
    payloadOk: (Node, bool) -> bool,
    functionOk: Function -> bool)
  {
    function SettingsFor(imports: Imports, functions: seq<Function>): Settings {
      var operators := Operators(registry, LocalIds(functions), checkCustomDomain, verifies);
      Settings(irVersion, true, imports, operators, graphOk, payloadOk, functionOk)
    }

    function ContextFor(functions: seq<Function>): Context {
      Context(functions, registry, parameters)
    }
  }

  function LocalIds(functions: seq<Function>): set<string> {
    set f | f in functions :: FunctionImplId(f)
  }

  // ----- model-local functions -----

  ghost predicate LocalFunctionAccepted(f: Function, functions: seq<Function>, merged: Imports, c: Checker,
                                        outer: set<string>) {
    && ImportsOf(f.opsetImports, false).Some?
    && (!c.skipOpsets ==> BodyCompatible(f, c.registry, merged))
    && FunctionAccepted(f, c.SettingsFor(ImportsOf(f.opsetImports, false).value, functions), outer)
  }

  // Everything but the depth of call chains.
  ghost predicate LocalFunctionsAccepted(functions: seq<Function>, imports: Imports, c: Checker, outer: set<string>) {
    && Merge(imports, AllOpsets(functions)).Some?
    && |functions| <= MAX_MODEL_LOCAL_FUNCTIONS && DistinctIds(functions) && VersionsInRange(functions)
    && Acyclic(CallGraphOf(functions, c.registry))
    && forall k: nat | k < |functions| ::
         LocalFunctionAccepted(functions[k], functions, Merge(imports, AllOpsets(functions)).value, c, outer)
  }

  ghost predicate Shallow(functions: seq<Function>, registry: Registry) {
    VersionsInRange(functions) ==> forall w :: !IsDeepChain(CallGraphOf(functions, registry), w)
  }

  method CheckModelLocalFunctions(functions: seq<Function>, imports: Imports, c: Checker,
                                  parentLex: LexicalScopeContext)
    returns (ok: bool, ghost order: seq<Func>)
    requires parentLex.Valid()
    ensures ok ==> LocalFunctionsAccepted(functions, imports, c, parentLex.Visible())
    ensures ok ==> Ranked(c.ContextFor(functions), order)
    ensures Shallow(functions, c.registry) ==>
      (ok <==> LocalFunctionsAccepted(functions, imports, c, parentLex.Visible()))
  {
    order := [];
    var merged := MergeImports(imports, functions);
    if merged.None? {
      return false, order;
    }
    var cycles := CheckFunctionCallCycles(functions, c.registry);
    if !cycles.Passed? {
      return false, order;
    }
    order :| CalleesFirst(CallGraphOf(functions, c.registry), order) && forall i: nat | i < |functions| :: i in order;
    ok := CheckFunctions(functions, merged.value, c, parentLex);
  }

  // The loop that calls check_function.
  method CheckFunctions(functions: seq<Function>, merged: Imports, c: Checker, parentLex: LexicalScopeContext)
    returns (ok: bool)
    requires parentLex.Valid()
    ensures ok <==> forall k: nat | k < |functions| ::
      LocalFunctionAccepted(functions[k], functions, merged, c, parentLex.Visible())
  {
    for k := 0 to |functions|
      invariant forall i: nat | i < k :: LocalFunctionAccepted(functions[i], functions, merged, c, parentLex.Visible())
    {
      ok := CheckLocalFunction(functions[k], functions, merged, c, parentLex);
      if !ok {
        return;
      }
    }
    ok := true;
  }

  method CheckLocalFunction(f: Function, functions: seq<Function>, merged: Imports, c: Checker,
                            parentLex: LexicalScopeContext)
    returns (ok: bool)
    requires parentLex.Valid()
    ensures ok <==> LocalFunctionAccepted(f, functions, merged, c, parentLex.Visible())
  {
    ok := CheckFunctionOpsets(f, c.registry, merged, c.skipOpsets);
    if !ok {
      return;
    }
    var own := BuildImports(f.opsetImports, false);
    ok := CheckFunction(f, c.SettingsFor(own.value, functions), parentLex);
  }

  // ----- the model -----

  // The imports in force for the graph; None where they do not fit the IR version.
  function StartImports(irVersion: int, opsets: seq<OpsetImport>): Option<Imports> {
    if irVersion == 0 || irVersion > IR_VERSION || ImportsOf(opsets, false).None? then None
    else
      var imports := ImportsOf(opsets, false).value;
      if irVersion >= 3 then (if imports == map[] then None else Some(imports))
      else if imports == map[] then Some(map["" := 1])
      else None
  }

  ghost predicate ModelAccepted(m: Model, opsets: seq<OpsetImport>, c: Checker) {
    && StartImports(c.irVersion, opsets).Some?
    && var imports := StartImports(c.irVersion, opsets).value;
    && LocalFunctionsAccepted(m.functions, imports, c, {})
    && ModelFinding(m.graph, imports, c.ContextFor(m.functions)).Clean?
    && GraphWellFormed(m.graph, c.SettingsFor(imports, m.functions)) && GraphScoped(m.graph, {})
  }

  method CheckModel(m: Model, opsets: seq<OpsetImport>, c: Checker) returns (ok: bool, ghost order: seq<Func>)
    ensures ok ==> ModelAccepted(m, opsets, c) && Ranked(c.ContextFor(m.functions), order)
    ensures Shallow(m.functions, c.registry) ==> (ok <==> ModelAccepted(m, opsets, c))
  {
    order := [];
    var imports := StartingImports(c.irVersion, opsets);
    if imports.None? {
      return false, order;
    }
    var lex := new LexicalScopeContext(null);
    assert lex.Visible() == {};
    ok, order := CheckModelLocalFunctions(m.functions, imports.value, c, lex);
    assert lex.Visible() == {};
    if !ok {
      return;
    }
    var failure := CheckQuantizationParameterReferences(m.graph, imports.value, c.ContextFor(m.functions));
    if failure.Some? {
      return false, order;
    }
    ok := CheckGraph(m.graph, c.SettingsFor(imports.value, m.functions), lex);
  }

  // A model starts exactly if its IR version is known, its import versions fit, and it imports something from IR
  // version 3 on and nothing before. Then it starts with the last import of each domain, or with version 1 of the
  // default one.
  lemma {:induction false} StartImportsMeaning(irVersion: int, opsets: seq<OpsetImport>)
    ensures StartImports(irVersion, opsets).Some? <==>
      && irVersion != 0 && irVersion <= 14
      && (forall i | 0 <= i < |opsets| :: VersionFits(opsets[i]))
      && (irVersion >= 3 <==> opsets != [])
    ensures StartImports(irVersion, opsets).Some? && irVersion < 3 ==>
      StartImports(irVersion, opsets).value == map["" := 1]
    ensures StartImports(irVersion, opsets).Some? && irVersion >= 3 ==>
      && StartImports(irVersion, opsets).value.Keys == Domains(opsets)
      && forall i | 0 <= i < |opsets| && forall j | i < j < |opsets| :: opsets[j].domain != opsets[i].domain ::
           StartImports(irVersion, opsets).value[opsets[i].domain] == opsets[i].version
  {
    ImportsFit(opsets, false);
    if ImportsOf(opsets, false).Some? {
      var imports := ImportsOf(opsets, false).value;
      assert imports.Keys == Domains(opsets);
      if opsets == [] {
        assert imports == map[];
      } else {
        assert opsets[0].domain in imports.Keys;
      }
      forall i | 0 <= i < |opsets| && forall j | i < j < |opsets| :: opsets[j].domain != opsets[i].domain
        ensures imports[opsets[i].domain] == opsets[i].version
      {
        LastImportWins(opsets, false, i);
      }
    }
  }

  method StartingImports(irVersion: int, opsets: seq<OpsetImport>) returns (r: Option<Imports>)
    ensures r == StartImports(irVersion, opsets)
  {
    if irVersion == 0 || irVersion > IR_VERSION {
      return None;
    }
    r := BuildImports(opsets, false);
    if r.None? {
      return;
    }
    if irVersion >= 3 {
      if r.value == map[] {
        return None;
      }
    } else if r.value == map[] {
      r := Some(map["" := 1]);
    } else {
      return None;
    }
  }

  // ----- what acceptance gives -----

  // Every operator of a function body means what the merged imports say, in every function, as long as its domain is
  // not hidden.
  lemma {:induction false} AcceptedModelsAgree(m: Model, opsets: seq<OpsetImport>, c: Checker, k: nat, i: nat, l: nat,
                                               j: nat)
    requires ModelAccepted(m, opsets, c) && !c.skipOpsets
    requires k < |m.functions| && i < |m.functions[k].nodes| && l < |m.functions| && j < |m.functions[l].nodes|
    requires m.functions[k].nodes[i].domain == m.functions[l].nodes[j].domain
    requires m.functions[k].nodes[i].opType == m.functions[l].nodes[j].opType
    requires !Hidden(m.functions[k].nodes[i].domain, StartImports(c.irVersion, opsets).value, AllOpsets(m.functions))
    ensures ImportsOf(m.functions[k].opsetImports, false).Some? && ImportsOf(m.functions[l].opsetImports, false).Some?
    ensures Resolve(m.functions[k].nodes[i], ImportsOf(m.functions[k].opsetImports, false).value, c.registry) ==
      Resolve(m.functions[l].nodes[j], ImportsOf(m.functions[l].opsetImports, false).value, c.registry)
  {
    var imports := StartImports(c.irVersion, opsets).value;
    var merged := Merge(imports, AllOpsets(m.functions)).value;
    assert LocalFunctionAccepted(m.functions[k], m.functions, merged, c, {});
    assert LocalFunctionAccepted(m.functions[l], m.functions, merged, c, {});
    FunctionsAgreeOnOperators(imports, m.functions, c.registry, k, i, l, j);
  }

  // Evaluating the graph of an accepted model never reads an undefined name, at any depth of nesting: it ends as long
  // as
  // every node has a result.
  lemma {:induction false} AcceptedModelsEvaluate<V(!new)>(I: Interpretation<V>, m: Model, opsets: seq<OpsetImport>,
                                                           c: Checker, args: seq<V>)
    requires ModelAccepted(m, opsets, c) && |args| == |m.graph.inputs|
    ensures EvalGraph(I, m.graph, map[], args).Ok? <==> DefinedOn(I, AllNodes(m.graph.nodes))
  {
    var empty: Env<V> := map[];
    assert empty.Keys == {};
    ScopedGraphsNeverGetStuck(I, m.graph, empty, args);
  }

  // So does the evaluation of each function body.
  lemma {:induction false} AcceptedBodiesEvaluate<V(!new)>(I: Interpretation<V>, m: Model, opsets: seq<OpsetImport>,
                                                           c: Checker, k: nat, args: Env<V>)
    requires ModelAccepted(m, opsets, c) && k < |m.functions| && args.Keys == Names(m.functions[k].inputs)
    ensures EvalNodes(I, m.functions[k].nodes, map[], args).Ok? <==> DefinedOn(I, AllNodes(m.functions[k].nodes))
  {
    var empty: Env<V> := map[];
    assert empty.Keys == {};
    ScopedNodesNeverGetStuck(I, m.functions[k].nodes, empty, args);
  }

  // With the calls unfolded, the graph of an accepted model evaluates, for every meaning of the operators and all
  // arguments, exactly when each call that it leads to fits the signature of the function and takes only outputs that
  // the body produces. check_function does not ask for that.
  lemma {:induction false} AcceptedModelsUnfold<V(!new)>(S: Semantics<V>, m: Model, opsets: seq<OpsetImport>,
                                                         c: Checker,
                                                         order: seq<Func>, args: seq<Option<V>>)
    requires ModelAccepted(m, opsets, c) && Ranked(c.ContextFor(m.functions), order) && |args| == |m.graph.inputs|
    ensures var imports, context := StartImports(c.irVersion, opsets).value, c.ContextFor(m.functions);
      EvalGraph(Unfold(S, context, order, |order|, imports, []), m.graph, map[], args).Ok? <==>
      exists called :: AllSupplied(context, imports, m.graph.nodes, called)
  {
    UnfoldedGraphsNeverGetStuck(S, c.ContextFor(m.functions), order, StartImports(c.irVersion, opsets).value, m.graph,
                                args);
  }
}
