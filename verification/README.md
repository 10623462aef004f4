# Verified model of the ONNX checker core

This project models, in Dafny, the parts of the repository that carry state through loops and whose results have
consequences for a whole model file, and proves what those parts are for.

| module | models |
|---|---|
| `Basics`, `Onnx` | optional values and lists without repetition; the protobuf messages that the checks walk |
| `FunctionCycles` | the iterative depth-first search that rejects recursive model-local functions |
| `SearchOrders` | what that search answers over all orders in which roots and callees can come |
| `CallGraphs` | the worklist that collects the call graph through nested subgraphs, and the whole cycle check |
| `OperatorChecks` | which operators a node may name, given imports, schemas and local functions |
| `Scopes`, `Shadowing` | single static assignment and topological order over mutable, chained lexical scopes |
| `Evaluation`, `CallUnfolding` | what accepted graphs compute: when evaluation gets stuck, that accepted orders agree, and what calls of local functions add |
| `Opsets` | opset imports, their merge, and the rule that functions and model resolve operators alike |
| `Binding` | the recursive traversal that binds function calls, and what its findings mean |
| `BindingSafety`, `BindingExactness` | when that traversal reports a recursion, and exactly which functions allow it |
| `ModelChecks` | `check_model`: all of these in sequence, and what acceptance means |
| `RecursionExample`, `UnproducedOutputs` | models on which the checks disagree, or that are accepted and do not evaluate |
| `SparseIndices`, `SparseCounts`, `SparseStorage` | the two index formats of sparse tensors, their checks, and the decoding of indices |
| `TensorStorage`, `TensorAcceptance` | element counts, byte sizes and the fields that hold the elements of a dense tensor |
| `WireScan`, `WireScanCases`, `Delimiters` | the scans of binary and text models for `training_info` |
| `SubByte` | packing of 2- and 4-bit values into bytes, and back |
| `GroupScopes`, `ScopeResolution` | name resolution by a worklist over shared chained maps, and what it says of the messages |

Code that mutates is modelled by classes and methods with loops, each proved against a specification function or
predicate; the properties of the specification are lemmas. Containers without a defined order (`unordered_map`,
`unordered_set`) are iterated by an arbitrary choice, so the results hold for every order. Arithmetic that the source
does on `int64_t` is done on a bounded `int64` type, so the absence of overflow is part of what is proved. A failed
check, which throws in the source, is a result value here.

Findings worth knowing:

- Passing the cycle check does not bound call chains by 100: a function that is already Done is not descended again
  (`checker.cc:1199-1209`), so the outcome can depend on the order in which the containers are iterated. Some order
  accepts exactly the acyclic call graphs (`SearchOrders.SomeOrderAccepts`); every order accepts exactly those that
  have no chain of 101 distinct functions either (`SearchOrders.EveryOrderAccepts`). On a chain of 101 functions both
  outcomes occur (`SearchOrders.OrderDecidesLongChains`).
- The comment in `check_graph` (`checker.cc:922-924`) says that shadowing is not allowed. The code accepts inputs and
  initializers that hide outer names, and siblings that share names (`Shadowing.HiddenAndSharedNamesAreAccepted`). Names
  are unique along a path of scopes exactly when no nested graph declares a name that is visible to it
  (`Shadowing.UniqueNamesExactly`). The model follows the code.
- The cycle check does not rule out the failure "Recursive model-local function" of the binding traversal. A model whose
  functions and graph pass every other check, and whose call graph has no edge, is reported as recursive
  (`RecursionExample.AcceptedFunctionsCanRecurse`): a call passes a graph that calls the same function. Which functions
  allow this is characterised exactly: those that hand a caller's attribute on to their own nodes
  (`BindingExactness.SelfCallReportedExactly`, `BindingExactness.SafeForAllGraphsExactly`).
- The exit "the model does not import this domain" of the opset test is dead for every domain that a function imports
  as its nodes spell it, and for every domain with a single spelling, whatever the versions
  (`Opsets.MergedImportsCoverFunctions`). It is taken exactly for the aliases of the ONNX domain that imports at version
  -1 hide, those of the model as those of other functions, in the order in which they are merged
  (`Opsets.LacksDomainExactly`).
- `check_function` does not ask that declared outputs are produced. A model can pass every check and still not evaluate
  once its calls are unfolded (`UnproducedOutputs.AcceptedModelsCanGetStuck`). An accepted model evaluates exactly when
  every call that its graph leads to fits the signature of its function and takes only outputs that the body produces
  (`ModelChecks.AcceptedModelsUnfold`).
- An index tensor that stores a segment, or that is stored externally, is accepted by `check_tensor` and then read past
  the end of its decoded data (`SparseStorage.SegmentsAndLocationsRunOut`); index tensors that are stored whole and in
  the model never are (`SparseStorage.WholeTensorsAreCovered`).
- Whether the dimension product of an empty tensor is accepted depends on the order of the dimensions
  (`TensorStorage.ZeroDimensionsAreOrderSensitive`); the deciding quantity is the product before the first zero.

## Model

| member | source | states |
|---|---|---|
| FunctionCycles.RankDecreases | onnx_light/onnx_lib/checker.cc:1185-1194 | in an order that lists callees first, every call edge goes to a strictly smaller rank |
| FunctionCycles.ChainsAreBounded | onnx_light/onnx_lib/checker.cc:1157-1211 | along any chain of calls, simple or not, ranks fall, so no chain is longer than the number of functions: unfolding calls terminates |
| FunctionCycles.RankedGraphIsAcyclic | onnx_light/onnx_lib/checker.cc:1157-1211 | a graph with such an order has no closed walk of call edges |
| FunctionCycles.PathClosesCycle | onnx_light/onnx_lib/checker.cc:1200-1206 | the stretch of the path printed by the cycle message is a simple closed walk of real call edges |
| FunctionCycles.SearchingAfterPush | onnx_light/onnx_lib/checker.cc:1168-1181 | `push` keeps the invariant of the search: path and stack list one simple chain, colours match, finished functions have finished callees, and the round count balances; past the limit the path is a chain of 101 distinct functions |
| FunctionCycles.SearchingAfterPop | onnx_light/onnx_lib/checker.cc:1188-1193 | backtracking keeps the invariant: the finished function comes after all of its callees |
| FunctionCycles.SearchingAfterAdvance | onnx_light/onnx_lib/checker.cc:1196-1208 | stepping to a Done callee keeps the invariant, stepping to an unvisited one leaves the state that `push` needs |
| FunctionCycles.CycleSearch.Push | onnx_light/onnx_lib/checker.cc:1168-1181 | succeeds with the invariant restored and one more function seen, or fails with the path as a witness of a chain of 101 distinct functions |
| FunctionCycles.CycleSearch.Backtrack | onnx_light/onnx_lib/checker.cc:1188-1193 | keeps the invariant, loses no seen function, and lowers the work measure |
| FunctionCycles.CycleSearch.NextCallee | onnx_light/onnx_lib/checker.cc:1196-1200 | whichever callee the iterator yields: one that is InPath closes a cycle at its place on the path, a Done one changes nothing, an unvisited one can be pushed |
| FunctionCycles.CycleSearch.Round | onnx_light/onnx_lib/checker.cc:1185-1210 | one round keeps the invariant, loses no seen function and lowers the termination measure, or ends the search with a genuine witness |
| FunctionCycles.CycleSearch.DetectCycleDFS | onnx_light/onnx_lib/checker.cc:1157-1211 | terminates; on success the root and everything seen before are Done and nothing is left InPath, with colours shared between roots; a cycle report is a real cycle, a depth report a real chain of 101 |
| FunctionCycles.SearchAllRoots | onnx_light/onnx_lib/checker.cc:1268-1274 | for every order of roots and callees: acceptance yields an order with callees first in exactly one round per function plus one per call edge; a rejection has a genuine witness; the outcome is one that the run relation allows |
| SearchOrders.RunsKeepInvariant | onnx_light/onnx_lib/checker.cc:1157-1211 | every state of every run satisfies the invariant of the search |
| SearchOrders.EveryRunEnds | onnx_light/onnx_lib/checker.cc:1157-1211 | from every state of a run, further moves lead to a state in which the search accepts or may fail at its next look |
| SearchOrders.NoRunIsEndless | onnx_light/onnx_lib/checker.cc:1157-1211 | from every state of a run, no infinite sequence of moves can be made |
| SearchOrders.DeepChainRejects | onnx_light/onnx_lib/checker.cc:1168-1181 | a chain of 101 distinct functions can be walked to its end, where the depth limit fires |
| SearchOrders.DeepChainsHave101 | onnx_light/onnx_lib/checker.cc:1151-1175 | the chains that trip the depth limit have exactly 101 distinct functions, each calling the next |
| SearchOrders.RejectionIsGenuine | onnx_light/onnx_lib/checker.cc:1199-1209 | whatever the order, a rejection means a closed walk of calls or a chain of 101 distinct functions |
| SearchOrders.SomeOrderAccepts | onnx_light/onnx_lib/checker.cc:1157-1211 | some order of roots and callees accepts if and only if no function is recursive |
| SearchOrders.EveryOrderAccepts | onnx_light/onnx_lib/checker.cc:1157-1211 | every order accepts if and only if no function is recursive and no chain of distinct calls has 101 functions |
| SearchOrders.OrderDecidesLongChains | onnx_light/onnx_lib/checker.cc:1199-1209 | a chain of 101 functions is accepted in one order and rejected in another |
| CallGraphs.CollectGraphs | onnx_light/onnx_lib/checker.cc:1243-1252 | pushes exactly the nodes of the graphs of all attributes, in order, on top of what is pending |
| CallGraphs.ChildNodesMeaning | onnx_light/onnx_lib/checker.cc:1243-1252 | the callees of what is pushed are those of recursive descent into the attributes, and the pushed tree is no larger than they are |
| CallGraphs.CollectCallees | onnx_light/onnx_lib/checker.cc:1242-1265 | the worklist computes the callees given by recursive descent over body nodes, default attributes and all nested graphs, restricted to calls without an operator schema |
| CallGraphs.CalleesExactly | onnx_light/onnx_lib/checker.cc:1253-1265 | a function calls `k` if and only if some node at some depth of its body or of its default attributes has the identifier of `k` and resolves to no version, or to one at which the registry has no schema for it |
| CallGraphs.SiteVersions | onnx_light/onnx_lib/checker.cc:1239-1241 | at the nodes of a function, every name of the ONNX domain stands for the version that the function imports last under any of these names |
| CallGraphs.PositionsMeaning | onnx_light/onnx_lib/checker.cc:1224-1228 | the index has exactly the identifiers of the functions, each at a position that carries it |
| Onnx.SameImplIdExactly | onnx_light/onnx_lib/common/proto_util.h:37-75 | identifiers of the same operator and overload are equal if and only if the domains are, or are both among "" and "ai.onnx" |
| CallGraphs.IndexFunctions | onnx_light/onnx_lib/checker.cc:1222-1232 | fails exactly when two functions have the same implementation identifier, otherwise it is the index by identifier |
| CallGraphs.BuildCallGraph | onnx_light/onnx_lib/checker.cc:1234-1266 | in any order of functions: fails exactly when some imported version is out of range, otherwise it is the graph of recursive descent |
| CallGraphs.CheckFunctionCallCycles | onnx_light/onnx_lib/checker.cc:1215-1275 | each outcome is characterised: too many functions, duplicate identifiers, a bad version, a genuine cycle or deep chain, or an acyclic graph with an order that puts callees first; passing and failing in the search are outcomes that some order allows; without a deep chain, passing is equivalent to acyclicity and the count and identifier conditions |
| Scopes.UniqueMeaning | onnx_light/onnx_lib/checker.cc:937-948 | inserting names one by one into a set succeeds exactly when they are pairwise distinct and none was there before |
| Scopes.DeclaredExactly | onnx_light/onnx_lib/checker.cc:928-1001 | the names declared before the first node are those of the inputs and of all three kinds of initializers |
| Scopes.PresentNames | onnx_light/onnx_lib/checker.cc:1005-1009 | names are present unless they are empty |
| Scopes.OutputsExactly | onnx_light/onnx_lib/checker.cc:1037-1049 | a list of nodes defines exactly the non-empty outputs of its nodes |
| Scopes.NodesScopedMeaning | onnx_light/onnx_lib/checker.cc:1003-1050 | the recursive rule read node by node: node `k` reads only names declared at the start, outputs of earlier nodes, and outer names, and defines only names not visible there |
| Scopes.LexicalScopeContext.constructor | onnx_light/onnx_lib/checker.h:202-203 | a new scope is empty and chained to its parent; the chain stays finite |
| Scopes.LexicalScopeContext.Add | onnx_light/onnx_lib/checker.h:219-220 | adds the name to this scope and leaves what the ancestors define |
| Scopes.LexicalScopeContext.ThisOrAncestorGraphHas | onnx_light/onnx_lib/checker.h:225-231 | the walk over parents answers membership in the union of this scope and all of its ancestors |
| Scopes.CheckInputs | onnx_light/onnx_lib/checker.cc:1005-1015 | accepts exactly when every present input is visible (graphs) or defined in this very scope (functions) |
| Scopes.CheckOutputs | onnx_light/onnx_lib/checker.cc:1037-1049 | accepts exactly when the present outputs are distinct and invisible before; then they are defined and ancestors are unchanged |
| OperatorChecks.FindImport | onnx_light/onnx_lib/checker.cc:838-856 | finds a version exactly when the domain is imported as spelt or, for the ONNX domain, under some alias, and then the version that lookups elsewhere give |
| OperatorChecks.CheckOperator | onnx_light/onnx_lib/checker.cc:857-904 | accepts exactly experimental operators, calls of local functions without a schema, operators with a schema that verify and name a local function if they have an overload, and operators without a schema in custom domains that are not checked |
| OperatorChecks.OperatorAllowedExactly | onnx_light/onnx_lib/checker.cc:838-904 | all cases on the registry, with every name written out: experimental operators are exempt under "" and "ai.onnx" only; without a schema, an operator that is not local is refused in the five built-in domain names, and elsewhere exactly when custom domains are checked |
| Scopes.OperatorsAreAllowed | onnx_light/onnx_lib/checker.cc:829-905 | in accepted nodes, every node at every depth has an imported domain and an operator that is allowed there |
| Scopes.CheckNode | onnx_light/onnx_lib/checker.cc:829-905 | accepts exactly the well-formed nodes with an allowed operator whose subgraphs are scoped in everything visible at that point, outputs of later nodes not included |
| Scopes.NodeNamesExactly | onnx_light/onnx_lib/checker.cc:829-871 | a well-formed node has an operator, an input or an output, and attributes with distinct non-empty names |
| Scopes.CheckAttribute | onnx_light/onnx_lib/checker.cc:807-813 | accepts exactly when the subgraph and every graph of the list is well formed and scoped; siblings do not see each other's names |
| Scopes.DeclareInitializers | onnx_light/onnx_lib/checker.cc:937-1001 | accepts exactly when names are non-empty and distinct across all kinds of initializers, and declared as inputs where the IR version demands it |
| Scopes.InitializersWithoutInputs | onnx_light/onnx_lib/checker.cc:951-962 | a graph with an initializer that is no input is well formed exactly from IR version 4 on |
| Scopes.CheckGraph | onnx_light/onnx_lib/checker.cc:907-1058 | run on mutable scopes, accepts exactly the graphs that satisfy the declarative scoping rule under the names the parent shows, at every depth, and the naming rules |
| Scopes.GraphNamesExactly | onnx_light/onnx_lib/checker.cc:907-1001 | a well-formed graph has a name, distinct inputs, and initializers that are distinct across all kinds and non-empty, and inputs as well up to IR version 3 |
| Scopes.CheckFunction | onnx_light/onnx_lib/checker.cc:1309-1398 | accepts exactly the functions with distinct inputs, outputs and attributes whose nodes read only the function's own names; outputs need not be produced |
| Scopes.FunctionNamesExactly | onnx_light/onnx_lib/checker.cc:1309-1398 | an accepted function has a name, distinct inputs, outputs and attributes, and nodes that read nothing from outside |
| Shadowing.OutputsAreNew | onnx_light/onnx_lib/checker.cc:1037-1049 | nodes of a scoped graph never define a name that an enclosing scope shows |
| Shadowing.UniqueNamesExactly | onnx_light/onnx_lib/checker.cc:922-962 | in an accepted graph no name hides another, at any depth, if and only if no nested graph declares a name visible to it |
| Shadowing.HiddenAndSharedNamesAreAccepted | onnx_light/onnx_lib/checker.cc:922-962 | an accepted graph with two siblings that share a name which also hides a name of the enclosing graph |
| Evaluation.ArgumentsExactly | onnx_light/onnx_lib/checker.cc:930-962 | evaluation binds the inputs of a graph by position, before its initializers |
| Evaluation.ConstantsExactly | onnx_light/onnx_lib/checker.cc:937-1001 | a name that is no input has the value of its last initializer |
| Evaluation.InputsExactly | onnx_light/onnx_lib/checker.cc:1005-1015 | a node reads the values of its present inputs in order, and nothing for absent ones |
| Evaluation.ResultsExactly | onnx_light/onnx_lib/checker.cc:1052-1055 | a graph returns the values of its outputs in order |
| Evaluation.ScopedGraphsNeverGetStuck | onnx_light/onnx_lib/checker.cc:1002-1055 | for every interpretation and arguments, evaluation in list order ends if and only if every node has a result and the graph is scoped: no undefined name is read and no visible one rebound, at any depth |
| Evaluation.ScopedNodesNeverGetStuck | onnx_light/onnx_lib/checker.cc:1003-1050 | the same for a list of nodes, which defines exactly its present outputs |
| Evaluation.SameGraph | onnx_light/onnx_lib/checker.cc:922-925 | the results of a scoped graph depend only on the values of the outer names it can see, not on names added elsewhere |
| Evaluation.EvalGrows | onnx_light/onnx_lib/checker.cc:1037-1049 | evaluation never changes a bound value and never binds a name that an outer scope shows |
| Evaluation.OrdersAgree | onnx_light/onnx_lib/checker.cc:1002-1055 | every value that one accepted order has computed at some point is the final value in the other order |
| Evaluation.Confluence | onnx_light/onnx_lib/checker.cc:1002-1055 | two accepted orders of the same nodes end under the same condition and bind every name to the same value, for every interpretation with subgraphs that capture outer names |
| Evaluation.ReorderedGraphsAreEqual | onnx_light/onnx_lib/checker.cc:907-1058 | reordering the nodes of an accepted graph into another accepted order does not change its results |
| CallUnfolding.SuppliedExactly | onnx_light/onnx_lib/inliner/inliner.cc:210-238 | a call is supplied if and only if it has no more inputs and outputs than the function, and each output it takes is an input of the function or a node output of its body |
| CallUnfolding.BodyRuns | onnx_light/onnx_lib/checker.cc:1309-1398 | for every meaning of the operators, arguments and graphs passed, a scoped function body runs to its end if and only if the calls in it are sound, and then defines its inputs and what its nodes produce |
| CallUnfolding.DefinedExactly | onnx_light/onnx_lib/inliner/inliner.cc:210-238 | with calls unfolded along falling ranks, a node has a result if and only if its call fits the signature, takes only produced outputs, and the calls in the body are sound in turn |
| CallUnfolding.SoundExactly | onnx_light/onnx_lib/checker.cc:1157-1211 | ranks and recursion aside: nodes are sound if and only if some set of functions holds all that they call, directly or through its members, with every call supplied |
| CallUnfolding.UnfoldedGraphsNeverGetStuck | onnx_light/onnx_lib/checker.cc:1002-1055 | a scoped graph with calls unfolded evaluates if and only if all calls it leads to are supplied |
| CallUnfolding.CallsYieldBodyValues | onnx_light/onnx_lib/inliner/inliner.cc:210-238 | each output of a call gets the value that the body, run on the inputs and graphs of the call, gives to the output of the function at the same place |
| UnproducedOutputs.AcceptedModelsCanGetStuck | onnx_light/onnx_lib/checker.cc:1309-1398 | a model that is accepted and whose unfolded graph gets stuck under every meaning of the operators |
| Opsets.ImportsFit | onnx_light/onnx_lib/checker.cc:1060-1066 | there is an import map exactly when every version fits, and its keys are the imported domains |
| Opsets.LastImportWins | onnx_light/onnx_lib/checker.cc:1320-1323 | the last import of a domain decides its version |
| Opsets.LastOnnxImportWins | onnx_light/onnx_lib/checker.cc:1239-1241 | in a map keyed by normalised domain, the last import under any name of the ONNX domain decides for all of its names |
| Opsets.ImportsComeFromOpsets | onnx_light/onnx_lib/checker.cc:1320-1323 | every version of the import map was imported under that domain |
| Opsets.BuildImports | onnx_light/onnx_lib/checker.cc:1320-1323 | fails exactly when some version does not fit, otherwise it is the last-wins map |
| Opsets.VersionFound | onnx_light/onnx_lib/checker.cc:1068-1085 | -1 is answered exactly for domains imported under none of their names, as long as no import carries -1 |
| Opsets.VersionLookup | onnx_light/onnx_lib/checker.cc:1068-1085 | the import as spelt decides; for the names of the ONNX domain, after that, the first of "", "ai.onnx" and "onnx.ai" that is imported; otherwise there is no version |
| Opsets.MergeImports | onnx_light/onnx_lib/checker.cc:1287-1297 | the nested loops merge the concatenation of all imports, adding one only while its domain resolves to nothing, and fail on the first version that is needed and does not fit |
| Opsets.AllOpsetsInOrder | onnx_light/onnx_lib/checker.cc:1287-1297 | imports are merged function by function, each in its own order |
| Opsets.MergedVersionsAreImported | onnx_light/onnx_lib/checker.cc:1287-1297 | a version of the merge is that of the model, or that of the first import that gives the key one other than -1 |
| Opsets.MergedImportsResolve | onnx_light/onnx_lib/checker.cc:1283-1297 | whatever resolves in the model's imports keeps its version through the merge, and every import of every function resolves afterwards unless it carries -1 |
| Opsets.MergeHides | onnx_light/onnx_lib/checker.cc:1283-1297 | for all imports and domains, exactly the hidden domains have no version after the merge: no import gives them one and, as an alias, the domain finds no other alias with a version before it is itself imported |
| Opsets.CheckOpsetCompatibility | onnx_light/onnx_lib/checker.cc:1098-1142 | accepts exactly when the function imports the domain and, unless the model lacks it, both imports resolve the operator to the same since_version or to no schema |
| Opsets.CompatibleExactly | onnx_light/onnx_lib/checker.cc:1098-1142 | on the registry: different versions are accepted if and only if both lookups in the domain of the node, "" for the names of the ONNX domain, find no schema or equally old ones |
| Opsets.CheckFunctionOpsets | onnx_light/onnx_lib/checker.cc:1320-1378 | the loop accepts exactly when all top-level nodes are compatible, or when the check is skipped and the versions fit |
| Opsets.MergedImportsCoverFunctions | onnx_light/onnx_lib/checker.cc:1108-1112 | a domain that a function resolves is resolved by the merged imports, for all versions if the function imports it as spelt or if it has one spelling, and always if no import carries -1 |
| Opsets.LacksDomainExactly | onnx_light/onnx_lib/checker.cc:1108-1112 | for all versions, the exit "model does not import this domain" is taken if and only if the function resolves the domain and the imports hide it |
| Opsets.AcceptedFunctionsAgree | onnx_light/onnx_lib/checker.cc:1281-1307 | a node of an accepted function whose domain is not hidden resolves under the function's imports as under the merged ones |
| Opsets.FunctionsAgreeOnOperators | onnx_light/onnx_lib/checker.cc:1281-1307 | nodes of two accepted functions with the same domain and operator resolve to the same since_version, or both to no schema |
| Opsets.SentinelVersionHidesImports | onnx_light/onnx_lib/checker.cc:1068-1112 | with a model import of "" at -1, nodes of a function that imports "ai.onnx" are accepted unseen under the spelling "", and no longer once the function imports "" |
| Binding.NodesFindingMeaning | onnx_light/onnx_lib/checker.cc:1423-1470 | a finding is clean if and only if, at every depth, each parameter reference is valid where it stands and, when binding, each local call is not active, supplies what is required and has a clean bound body |
| Binding.NodesBoundMeaning | onnx_light/onnx_lib/checker.cc:1428-1433 | without binding, a bound reference is recorded if and only if some node at some depth refers to an attribute |
| Binding.OnlyParameterRefsCount | onnx_light/onnx_lib/checker.cc:1423-1446 | without binding, only attributes "parameter_ref" of "ai.rt" "Quantize" nodes decide whether nodes are clean and whether a reference was met |
| Binding.LocalCallExactly | onnx_light/onnx_lib/checker.cc:1451-1452 | a node is bound as a call exactly when it names a function and resolves to no version, or to one without a schema |
| Binding.CallOverridesDefaults | onnx_light/onnx_lib/checker.cc:1457-1461 | the last attribute of a name at the call is the value for that name |
| Binding.DefaultsFillIn | onnx_light/onnx_lib/checker.cc:1457-1461 | a name that the call lacks has the last default of the function, or no value |
| Binding.CallBindsExactly | onnx_light/onnx_lib/checker.cc:1453-1468 | a call binds if and only if its function is not active, every required attribute is given or has a default, the imported versions fit, and the bound body is clean |
| Binding.BoundAttributesExactly | onnx_light/onnx_lib/shape_inference/attribute_binder.h:32-57 | a reference becomes the value it refers to under its own name, disappears without one, and other attributes are bound inside |
| Binding.Traversal.VisitNode | onnx_light/onnx_lib/checker.cc:1423-1470 | on the mutable set of active functions, terminates and agrees with the recursive finding; on success the active set is as before the call |
| Binding.Traversal.VisitNodes | onnx_light/onnx_lib/checker.cc:1488-1489 | the first failing node decides; on success the active set is unchanged |
| Binding.FunctionsFindingMeaning | onnx_light/onnx_lib/checker.cc:1492-1496 | the pass over the functions is clean if and only if all imports fit and every parameter reference names a known parameter or refers to an attribute |
| Binding.ModelFindingMeaning | onnx_light/onnx_lib/checker.cc:1491-1498 | the whole check passes if and only if all references of graph and functions are valid, imports fit and, if some body refers to an attribute, every node of the graph binds |
| Binding.ModelFindingExactly | onnx_light/onnx_lib/checker.cc:1423-1498 | the whole check in terms of those attributes: nothing else makes the first two passes fail or the third one take place, apart from versions out of range |
| Binding.CheckQuantizationParameterReferences | onnx_light/onnx_lib/checker.cc:1491-1498 | terminates on every model, recursive or not, with the first failure of the three passes |
| BindingSafety.BoundVisits | onnx_light/onnx_lib/shape_inference/attribute_binder.h:32-57 | what holds of each bound node of a body and of each node of the values put in holds of every node of the bound body that the traversal goes through |
| BindingSafety.BoundBodyIsSafe | onnx_light/onnx_lib/checker.cc:1455-1468 | the body bound for a harmless call makes only harmless calls, all to functions that rank below it |
| BindingSafety.SafeNodesNeverRecursive | onnx_light/onnx_lib/checker.cc:1423-1470 | while every active function ranks above every callee in sight and calls are harmless, no recursion is reported |
| BindingSafety.HarmlessModelsNeverRecursive | onnx_light/onnx_lib/checker.cc:1543-1544 | a model that passed the cycle check and whose calls pass, under forwarded names, only graphs without calls of local functions never fails with "Recursive model-local function" |
| BindingSafety.NothingForwardedIsSafe | onnx_light/onnx_lib/checker.cc:1543-1544 | where no function forwards an attribute, no main graph is reported, whatever graphs its calls pass |
| BindingExactness.SelfCallIsReported | onnx_light/onnx_lib/checker.cc:1453-1454 | a call that binds with an empty graph is reported as recursive once the graph holds that call, if the function forwards the graph |
| BindingExactness.SelfCallReportedExactly | onnx_light/onnx_lib/checker.cc:1453-1454 | among harmless functions, such a call is reported if and only if the function forwards the attribute |
| BindingExactness.SafeForAllGraphsExactly | onnx_light/onnx_lib/checker.cc:1497-1498 | where the third pass takes place and forwarded attributes take an empty graph, no main graph is reported if and only if no function forwards an attribute |
| RecursionExample.AcceptedFunctionsCanRecurse | onnx_light/onnx_lib/checker.cc:1501-1546 | a model whose imports, functions and graph are accepted, with a call graph without edges, that the traversal reports as recursive |
| ModelChecks.CheckFunctions | onnx_light/onnx_lib/checker.cc:1304-1306 | accepts exactly when every local function is compatible with the merged imports and well scoped under its own imports |
| ModelChecks.CheckModelLocalFunctions | onnx_light/onnx_lib/checker.cc:1281-1307 | acceptance gives merged imports, an acyclic call graph with a rank, and accepted bodies; without a deep call chain it is equivalent to them |
| ModelChecks.CheckModel | onnx_light/onnx_lib/checker.cc:1501-1546 | acceptance gives all of this together with a clean binding traversal and a scoped main graph; without a deep call chain it is equivalent to them |
| ModelChecks.StartImportsMeaning | onnx_light/onnx_lib/checker.cc:1502-1532 | a model starts if and only if its IR version is known, all versions fit, and it imports something exactly from IR version 3 on; then each domain has its last version, or the default domain has version 1 |
| ModelChecks.AcceptedModelsAgree | onnx_light/onnx_lib/checker.cc:1281-1307 | an operator whose domain is not hidden means the same in any two local functions of an accepted model |
| ModelChecks.AcceptedModelsEvaluate | onnx_light/onnx_lib/checker.cc:1543-1545 | the main graph of an accepted model evaluates, without ever reading an undefined name, as long as every node has a result |
| ModelChecks.AcceptedBodiesEvaluate | onnx_light/onnx_lib/checker.cc:1309-1398 | so does every function body of an accepted model, from its inputs alone |
| ModelChecks.AcceptedModelsUnfold | onnx_light/onnx_lib/checker.cc:1501-1546 | with all calls unfolded into bodies, the main graph of an accepted model evaluates if and only if every call that it leads to fits the signature and takes only outputs that the body produces |
| SparseIndices.LinearBound | onnx_light/onnx_lib/checker.cc:651-659 | the row-major index of a row in range lies below the product of the dimensions, so no intermediate value overflows when that product fits |
| SparseIndices.LinearOrder | onnx_light/onnx_lib/checker.cc:660-664 | linear indices of rows in range compare as the rows do lexicographically, and are equal only for equal rows |
| SparseIndices.FormatsAgree | onnx_light/onnx_lib/checker.cc:598-666 | rows in range are in strict lexicographic order exactly when their linear indices ascend |
| SparseIndices.CheckIndices1 | onnx_light/onnx_lib/checker.cc:598-628 | for any amount of decoded data: accepts exactly NNZ strictly ascending indices below the dense size, and reads past the end exactly when the data is too short and fine up to its end |
| SparseIndices.CountsDecide | onnx_light/onnx_lib/checker.cc:613-617 | whether that many stored indices can be read past their end depends on the counts alone |
| SparseIndices.CheckIndices2 | onnx_light/onnx_lib/checker.cc:633-666 | for any amount of decoded data: accepts exactly NNZ rows of full rank in range in strict lexicographic order, and reads past the end exactly when whole rows ascend and the rest is in range but too short |
| SparseStorage.ParseRawData | onnx_light/onnx_manipulations/tensor_util.h:55-70 | as many words as the shape declares, or a failure exactly when there are fewer |
| SparseStorage.WordExactly | onnx_light/onnx_manipulations/tensor_util.h:48-70 | eight bytes are read least significant first, as a two's complement number |
| SparseStorage.CheckSparseTensor | onnx_light/onnx_lib/checker.cc:668-714 | on any tensors: accepts exactly accepted values of rank 1 with positive dense dimensions and, unless there are no values, accepted int64 indices in order; reads past the end exactly when the decoded indices run out |
| SparseStorage.CoveredNeverRunsOut | onnx_light/onnx_lib/checker.cc:613-657 | indices whose decoded data covers their shape are never read past their end |
| SparseStorage.WholeTensorsAreCovered | onnx_light/onnx_manipulations/tensor_util.cc:30-41 | an accepted int64 tensor that is neither external nor a segment decodes to as many elements as its shape declares |
| SparseCounts.CoordinatesMeaning | onnx_light/onnx_lib/checker.cc:651-659 | every linear index below the product of the dimensions is that of a row in range |
| SparseCounts.RowCountsDecide | onnx_light/onnx_lib/checker.cc:641-657 | whether that many stored coordinates can be read past their end depends on the counts alone: too few for the declared rows, and no more whole rows than the dense size |
| SparseStorage.CountsDecideReads | onnx_light/onnx_lib/checker.cc:613-657 | in both formats, exactly stored counts below the declared ones and with no more whole rows than the dense size allow a read past the end; raw data never does |
| SparseStorage.SegmentsAndLocationsRunOut | onnx_light/onnx_lib/checker.cc:693-703 | two index tensors, one a segment and one external, that are accepted and read past their end |
| SparseStorage.AcceptedIndicesAscend | onnx_light/onnx_lib/checker.cc:668-714 | in either format an accepted tensor has exactly one strictly ascending linear index per value |
| SparseStorage.SparseTensorsExactly | onnx_light/onnx_lib/checker.cc:668-714 | a sparse tensor is accepted if and only if values and dense shape are valid and the indices, in either format, are accepted int64 data of the declared size, in range and strictly ascending as linear indices |
| SparseIndices.ScatterThenGather | onnx_light/onnx_lib/checker.cc:610-627 | scattering accepted values into a dense tensor and gathering them returns the values, other positions stay zero, and NNZ is at most the dense size |
| SparseIndices.SupportIsAccepted | onnx_light/onnx_lib/checker.cc:610-627 | the ascending list of any set of positions is accepted |
| SparseIndices.AcceptedListIsCanonical | onnx_light/onnx_lib/checker.cc:610-627 | an accepted index list is determined by its set of positions |
| SparseIndices.DenseRoundTrip | onnx_light/onnx_lib/checker.cc:668-714 | every dense tensor has an accepted sparse form and is recovered from it |
| TensorStorage.CheckedMulPortable | onnx_light/onnx_lib/common/safe_math.h:29-47 | the quotient comparisons of the portable branch, on int64, report overflow exactly when the true product does not fit, for all signs; neither a quotient nor the product overflows |
| TensorStorage.SafeDimProduct | onnx_light/onnx_lib/common/safe_math.h:107-122 | the exact product, or a failure exactly when a dimension is negative or a prefix product overflows |
| TensorStorage.FitsUpToFirstZero | onnx_light/onnx_lib/common/safe_math.h:107-122 | for non-negative dimensions the product fails exactly when the product before the first zero does not fit |
| TensorStorage.ZeroDimensionsAreOrderSensitive | onnx_light/onnx_lib/common/safe_math.h:107-122 | two orders of the same dimensions, product zero, of which one is refused |
| TensorStorage.ExpectedRawDataBytes | onnx_light/onnx_lib/checker.cc:195-213 | the ceiling of the element bits over eight for every width, with no intermediate overflow; a failure exactly when that number exceeds int64 |
| TensorStorage.WidthsExactly | onnx_proto/include/onnx_proto/onnx_helper.h:97-141 | which types have which width, for every type and width |
| TensorStorage.TableMatchesWidths | onnx_light/__main__.py:1474-1482 | the command line's table lists exactly the types that are not whole bytes wide, with the checker's widths |
| TensorStorage.SizesAgree | onnx_light/__main__.py:1498-1501 | checker, command line and test wrapper compute the same size, but for the wrapper's minimum of one byte and the checker's failure beyond int64 |
| TensorStorage.CountElements | onnx_light/onnx_lib/checker.cc:260-277 | the number of elements of the tensor or of its segment, or a failure exactly for a bad shape or a segment out of bounds |
| TensorStorage.CountValueFields | onnx_light/onnx_lib/checker.cc:239-258 | the count is 0 exactly when no field holds data and 1 exactly when a single one does |
| TensorStorage.FieldsExactly | onnx_light/onnx_lib/checker.cc:400-504 | which types are stored in which field, which take two entries, and which share one |
| TensorStorage.BitsAreOrdered | onnx_light/onnx_lib/checker.cc:360-371 | bit `i` of a byte has the weight 2^i |
| TensorStorage.RawSizeTest | onnx_light/onnx_lib/checker.cc:354-359 | the byte count suffices exactly when the bits of every element lie inside the raw data |
| TensorStorage.PackedSizeTest | onnx_light/onnx_lib/checker.cc:455-483 | the rounded-up entry count suffices exactly when every packed element lies inside the int32 field |
| TensorStorage.TypedSizeTest | onnx_light/onnx_lib/checker.cc:381-391 | the entry count, twice the elements for complex types, suffices exactly when every element lies inside the field |
| TensorStorage.PaddingTest | onnx_light/onnx_lib/checker.cc:360-371 | the masked test of the last byte looks at exactly the bits from 6n up to the end of the last byte |
| TensorStorage.CheckRawData | onnx_light/onnx_lib/checker.cc:349-372 | accepts exactly raw data that holds every element, is no string data and has clear FLOAT6 padding |
| TensorStorage.CheckTypedData | onnx_light/onnx_lib/checker.cc:373-504 | accepts exactly data in the field of its type that holds every element, within the guard against rounding overflow, with FLOAT6 values of six bits |
| TensorStorage.CheckTensor | onnx_light/onnx_lib/checker.cc:228-507 | accepts exactly the tensors with a valid type, shape and segment that are empty without data, external without data, or stored with every element inside the single field that may hold them |
| TensorAcceptance.CountedExactly | onnx_light/onnx_lib/checker.cc:260-277 | the shapes and segments that count, in numbers |
| TensorAcceptance.RawTensorsExactly | onnx_light/onnx_lib/checker.cc:349-372 | a tensor with raw data is accepted if and only if it is no string tensor, no other field holds data, there are as many bits as its elements have, and six-bit types leave the rest of their last byte clear |
| TensorAcceptance.TypedTensorsExactly | onnx_light/onnx_lib/checker.cc:373-504 | another stored tensor is accepted if and only if the field of its type alone holds data, with as many entries as its elements take, within the guard for packed types, and with values from 0 to 63 for six-bit types |
| TensorAcceptance.EmptyTensorsExactly | onnx_light/onnx_lib/checker.cc:278-348 | an empty or external tensor is accepted if and only if every field is empty |
| WireScan.EncodedIsVarint | onnx_light/__main__.py:1384-1393 | the reader inverts the standard encoder on every value below 2^64, in 1 to 10 bytes |
| WireScanCases.VarintsFit | onnx_light/__main__.py:1384-1393 | no varint that is accepted has a value of 2^64 or more |
| WireScan.VarintPrefixUnique | onnx_light/__main__.py:1384-1393 | no byte string starts with two different varints |
| WireScan.BitOrShifted | onnx_light/__main__.py:1390-1390 | or-ing a shifted group above the bits already present is addition |
| WireScan.ScanAcceptsMessages | onnx_light/__main__.py:1395-1414 | accepted are exactly the concatenations of complete fields of wire types 0, 1, 2 and 5 with numbers from 1 to 2^29-1 other than 20 |
| WireScan.ScanFindsTrainingInfo | onnx_light/__main__.py:1397-1400 | training_info is reported exactly when a tag with number 20 follows complete other fields |
| WireScanCases.TrainingInfoTag | onnx_light/__main__.py:1396-1400 | whatever its wire type, the tag of field 20 is reported |
| WireScanCases.FieldNumbers | onnx_light/__main__.py:1397-1402 | the fields that are skipped have the numbers from 1 to 536870911 other than 20 |
| WireScanCases.WireTypesExactly | onnx_light/__main__.py:1403-1414 | after a tag of one byte: one varint, eight bytes, as many bytes as the length says or four bytes are skipped, by wire type; other wire types and truncated payloads are malformed |
| WireScan.PayloadIgnored | onnx_light/__main__.py:1406-1414 | replacing the content of a length-delimited field by any other of the same length changes nothing |
| WireScan.Stream.ReadVarint | onnx_light/__main__.py:1384-1393 | reads the varint at the position and stops after it, or fails exactly when there is none |
| WireScan.SkipPayload | onnx_light/__main__.py:1403-1414 | moves past exactly one payload, or fails when it is malformed or truncated |
| WireScan.SkipField | onnx_light/__main__.py:1396-1414 | moves past exactly one field, or stops with the outcome that its head calls for |
| WireScan.RejectTrainingInfo | onnx_light/__main__.py:1381-1414 | for any bytes, ends without passing the end of the file, with the outcome of the scan; accepts exactly the messages |
| Delimiters.RejectTrainingInfo | onnx_light/__main__.py:1362-1379 | the loop on the mutable stack gives the outcome of the scan, and accepts unseen a text without the word |
| Delimiters.RunSkips | onnx_light/__main__.py:1368-1376 | balanced items are scanned without a trace on the stack, whatever they contain inside brackets |
| Delimiters.PairsExactly | onnx_light/__main__.py:1365-1378 | of the nine pairs of an opening and a closing bracket, exactly three match |
| Delimiters.NamesExactly | onnx_light/__main__.py:1368-1372 | outside of brackets, only the name training_info is refused, and other symbols pass |
| Delimiters.ReadOn | onnx_light/__main__.py:1366-1379 | what has been read at any point of a successful scan is a tree of balanced items under the open brackets |
| Delimiters.ScanAcceptsCleanBalanced | onnx_light/__main__.py:1366-1379 | accepted are exactly the texts balanced under the three-bracket grammar with no training_info at depth 0 |
| Delimiters.ScanFindsTrainingInfo | onnx_light/__main__.py:1369-1370 | training_info is reported exactly when the name follows such a balanced text, whatever comes after it |
| SubByte.AddField | onnx_light/ext_test_case.py:540-541 | adding a field above those present neither carries nor changes them, and stays below 256 |
| SubByte.FieldsDetermineByte | onnx_light/ext_test_case.py:540-542 | two bytes with the same fields are equal |
| SubByte.CountCovers | onnx_light/ext_test_case.py:503-516 | every byte position used lies inside the buffer of the computed size |
| SubByte.PackingIsUnique | onnx_light/ext_test_case.py:518-542 | there is only one buffer that holds the values at their places and zeros elsewhere |
| SubByte.LowBitsFirst | onnx_light/ext_test_case.py:518-542 | in numbers: the first value of a byte is in its low bits, for both widths |
| SubByte.FitsExactly | onnx_light/ext_test_case.py:544-571 | the ranges of the values, by width and sign |
| SubByte.PackSubByte | onnx_light/ext_test_case.py:518-542 | the in-place accumulation leaves each value in its own field and zeros everywhere else, with no carry and no write outside the buffer |
| SubByte.UnpackSubByte | onnx_light/ext_test_case.py:544-571 | as many values as asked for, each within the range of its type |
| SubByte.UnpackOfPack | onnx_light/ext_test_case.py:518-571 | unpacking a packed array returns the array, for 2 and 4 bits, signed and unsigned, any length |
| SubByte.PackOfUnpack | onnx_light/ext_test_case.py:518-571 | a buffer of the computed size with zero padding is the packing of what is unpacked from it |
| GroupScopes.LookupIsInnermost | onnx_light/onnx_core/graph_partition.py:179-186 | a lookup through the chain finds the entry of the innermost scope that has one |
| GroupScopes.DeclaringScopeDecides | onnx_light/onnx_core/graph_partition.py:185-186 | a name counts as a constant exactly when the innermost scope that declares it makes it one |
| ScopeResolution.MentioningScopeDecides | onnx_light/onnx_core/graph_partition.py:148-184 | the innermost scope that declares or annotates a name decides its annotation: in a graph the last output of that name, else the last input, value_info, sparse or dense initializer, in a function the last value_info; none where the name is only declared |
| ScopeResolution.UnknownNames | onnx_light/onnx_core/graph_partition.py:103-108 | a name that no scope knows has no annotation |
| ScopeResolution.LastInfoAt | onnx_light/onnx_core/graph_partition.py:182-184 | of several annotations of a name in one list, the last one counts |
| ScopeResolution.LastTensorAt | onnx_light/onnx_core/graph_partition.py:156-174 | of several tensors of a name in one list, the last one gives type and shape |
| ScopeResolution.LocalNamesAreDeclared | onnx_light/onnx_core/graph_partition.py:150-179 | a scope declares its inputs, its initializers of all kinds and the non-empty outputs of its nodes |
| ScopeResolution.ConstantNamesExactly | onnx_light/onnx_core/graph_partition.py:49-63 | the constants of a scope, said of the messages, with the names of the Constant operator written out |
| GroupScopes.LocalConstantNames | onnx_light/onnx_core/graph_partition.py:49-63 | the initializers that no input overrides, and the present outputs of standard Constant nodes |
| GroupScopes.CountConstantInputs | onnx_light/onnx_core/graph_partition.py:66-85 | the worklist count is the recursive sum over all scopes of the model |
| ScopeResolution.GraphCountExactly | onnx_light/onnx_core/graph_partition.py:66-85 | the count of a graph is the number of its own constants plus those of all graphs below it in the tree of messages |
| ScopeResolution.FunctionCountExactly | onnx_light/onnx_core/graph_partition.py:66-85 | the count of a function also has the graphs of its default attributes |
| GroupScopes.ChainMap.Update | onnx_light/onnx_core/graph_partition.py:179-186 | writes the local map and leaves the layers of the parents, which siblings share |
| GroupScopes.ChainMap.Get | onnx_light/onnx_core/graph_partition.py:100-121 | the walk over parents finds the entry of the innermost layer |
| GroupScopes.NewValues | onnx_light/onnx_core/graph_partition.py:148-184 | the chain of a scope is what it inherits with one layer more: its declarations, overridden by its annotations |
| GroupScopes.EnterScope | onnx_light/onnx_core/graph_partition.py:148-193 | the calls of a popped scope are reported as its own path of enclosing scopes resolves them |
| GroupScopes.PushedInherit | onnx_light/onnx_core/graph_partition.py:194-197 | pushed subgraphs inherit exactly the layers of their enclosing scopes, and the rest of the worklist keeps its own |
| GroupScopes.RoundAccounts | onnx_light/onnx_core/graph_partition.py:147-197 | in each round the reports made and those still due stay the same together, and the worklist shrinks |
| GroupScopes.EverySiteOnce | onnx_light/onnx_core/graph_partition.py:187-197 | the reports of a scope are, as a multiset, those of its call sites at every depth, each described along its own path of scopes |
| GroupScopes.EveryModelSiteOnce | onnx_light/onnx_core/graph_partition.py:146-198 | so are those of the whole model, main graph and functions |
| ScopeResolution.ReportedNodesExactly | onnx_light/onnx_core/graph_partition.py:146-198 | a node is reported under a key if and only if it has that domain, operator and overload and stands at some depth of the main graph, a function body or a default attribute |
| ScopeResolution.ReportKeysExactly | onnx_light/onnx_core/graph_partition.py:137-140 | reports are made for the domains, names and overloads of the functions given |
| GroupScopes.DescribeOperatorGroupCalls | onnx_light/onnx_core/graph_partition.py:124-198 | the worklist leaves under each requested key, in order, the reports of recursive descent, each call resolved along its own path |

## Left out

- Opsets.AcceptedFunctionsAgree: the domain must not be hidden; nodes of hidden domains are accepted unseen (`Opsets.LacksDomainExactly`).
- Opsets.FunctionsAgreeOnOperators: the same condition on the domain.
- ModelChecks.AcceptedModelsAgree: the same condition on the domain, and the opset check must not be skipped.
- CallUnfolding.DefinedExactly: graphs in default attributes of functions are left to the operators that refer to them; `check_function` does not check their scopes.
- Scopes.CheckGraph: value infos, tensors, types and the payloads of extended initializers are the open predicate `graphOk` of `Scopes.Settings`, since they do not look at scopes.
- Scopes.CheckNode: the verification of a node by its schema (with deprecation and tree ensembles) is the open predicate `verifies`, and attribute payloads are `payloadOk`.
- Scopes.CheckFunction: the presence of the domain field and the IR version of default attributes and value infos are the open predicate `functionOk`.
- SparseStorage.CheckSparseTensor: the product of the dense dimensions must fit int64, since the source multiplies them without a guard.
- SparseIndices.CheckIndices1: the same bound on the dense size.
- SparseIndices.CheckIndices2: the same bound on the dense size.
- TensorStorage.CheckTensor: fields are no longer than the largest int64, as in any process; the checks of external data against the file system are one parameter, and the table of IR versions by data type is left out.
- Binding.CheckQuantizationParameterReferences: the catalogue of parameters is a set of names, and the validation of extended initializers against it is left out.
- ModelChecks.CheckModel: metadata keys and the structural type catalogue are left out; payload checks are parameters, as in `Scopes`.
- BindingSafety.NothingForwardedIsSafe: string attributes must hold no graph; `check_attribute` refuses others, but only after the traversal.
- BindingExactness.SafeForAllGraphsExactly: the same condition on attributes; and each forwarded attribute must take an empty graph in some call whose operator is in no schema, so that no other failure comes before the recursion.
- Delimiters.RejectTrainingInfo: the text is given as tokens with one-character symbols; the regular expression is not modelled.
- GroupScopes.DescribeOperatorGroupCalls: reports keep the node and the resolved annotation and constness of each name; the symbolic byte sizes come from native code.
- SubByte.PackSubByte: shapes are flattened, and values are integers instead of NumPy scalars.
- TensorStorage.SizesAgree: the NumPy item size of whole-byte types is a parameter that must equal the checker's width.
- Files, paths, external data and the output of the optimize command: behaviour of libraries and the operating system.
- Schema verification, tree ensembles, structural types, shape inference and native bindings: their bodies are elsewhere.
- Values, sequences, maps and optionals (`check_value_info`, `check_sequence`, `check_map`, `check_optional`): single tests.
- Texts of error messages, and warnings about experimental operators.
