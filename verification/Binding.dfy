// The traversal that binds the attributes of model-local function calls to look for references to quantization
// parameters: check_quantization_parameter_references (onnx_lib/checker.cc).

module Binding {
  import opened Basics
  import opened Onnx
  import opened Opsets
  import opened FunctionCycles
  import opened CallGraphs

  // Recursive is the failure "Recursive model-local function"; the others are the remaining failures of the traversal.
  datatype Reason = Recursive(id: string) | BoundReference | BadReference | UnknownParameter | ExplicitParameter
    | MissingAttribute | VersionOutOfRange

  // `bound` tells whether a parameter_ref that refers to an attribute was met.
  datatype Finding = Clean(bound: bool) | Rejected(reason: Reason)

  // The model as the traversal sees it: its functions, the schemas and the catalogue of quantization parameters.
  datatype Context = Context(functions: seq<Function>, registry: Registry, parameters: set<string>) {
    function Keys(): map<string, Func> {
      ByKey(functions)
    }

    function FunctionOf(id: string): Function
      requires id in Keys()
    {
      PositionsMeaning(Ids(functions));
      functions[Keys()[id]]
    }

    predicate IsLocalCall(n: Node, imports: Imports) {
      CalleeId(n) in Keys() && !HasOperatorSchema(n, imports, registry)
    }
  }

  // Where a node stands: whether calls are bound, whether it is in a function body that is not bound.
  datatype Mode = Mode(bindFunctions: bool, unboundFunction: bool)

  type AttributeMap = map<string, Attribute>

  // ----- AttributeBinder (shape_inference/attribute_binder.h) -----

  function BindNodes(ns: seq<Node>, m: AttributeMap): seq<Node>
    decreases ns, 0
  {
    if ns == [] then [] else [ns[0].(attributes := BindAttributes(ns[0].attributes, m))] + BindNodes(ns[1..], m)
  }

  // A reference becomes the value it refers to, under its own name, or disappears; other attributes are bound inside.
  function BindAttributes(xs: seq<Attribute>, m: AttributeMap): seq<Attribute>
    decreases xs, 0
  {
    if xs == [] then []
    else
      (if xs[0].refAttrName == "" then [BindAttribute(xs[0], m)]
       else if xs[0].refAttrName in m then [m[xs[0].refAttrName].(name := xs[0].name)]
       else []) + BindAttributes(xs[1..], m)
  }

  function BindAttribute(a: Attribute, m: AttributeMap): Attribute
    decreases a, 1
  {
    a.(g := if a.g.Some? then Some(a.g.value.(nodes := BindNodes(a.g.value.nodes, m))) else None,
       graphs := BindGraphs(a.graphs, m))
  }

  function BindGraphs(gs: seq<Graph>, m: AttributeMap): seq<Graph>
    decreases gs, 0
  {
    if gs == [] then [] else [gs[0].(nodes := BindNodes(gs[0].nodes, m))] + BindGraphs(gs[1..], m)
  }

  // A later attribute of a name overwrites an earlier one.
  function ByName(xs: seq<Attribute>): AttributeMap {
    if xs == [] then map[] else ByName(xs[..|xs| - 1])[xs[|xs| - 1].name := xs[|xs| - 1]]
  }

  // Defaults of the function, overwritten by the attributes of the call.
  function CallAttributes(f: Function, n: Node): AttributeMap {
    ByName(f.attributeProtos + n.attributes)
  }

  // ----- the traversal as a function of the set of active functions -----

  predicate IsParameterRef(n: Node, a: Attribute) {
    n.domain == "ai.rt" && n.opType == "Quantize" && a.name == "parameter_ref"
  }

  // The look at one attribute of a node itself.
  function ReferenceFinding(n: Node, a: Attribute, mode: Mode, c: Context): Finding {
    if IsParameterRef(n, a) then
      if a.refAttrName != "" then
        if !mode.unboundFunction then Rejected(BoundReference) else Clean(true)
      else if !a.isString || a.s == "" then Rejected(BadReference)
      else if a.s !in c.parameters then Rejected(UnknownParameter)
      else if exists i | 1 <= i < |n.inputs| :: n.inputs[i] != "" then Rejected(ExplicitParameter)
      else Clean(false)
    else Clean(false)
  }

  function Then(first: Finding, second: Finding): Finding {
    if first.Rejected? then first else if second.Rejected? then second else Clean(first.bound || second.bound)
  }

  function NodesFinding(ns: seq<Node>, mode: Mode, imports: Imports, active: set<string>, c: Context): Finding
    decreases c.Keys().Keys - active, ns, 0
  {
    if ns == [] then Clean(false)
    else Then(NodeFinding(ns[0], mode, imports, active, c), NodesFinding(ns[1..], mode, imports, active, c))
  }

  function NodeFinding(n: Node, mode: Mode, imports: Imports, active: set<string>, c: Context): Finding
    decreases c.Keys().Keys - active, n, 1
  {
    var inside := AttributesFinding(n, n.attributes, mode, imports, active, c);
    if inside.Rejected? || !mode.bindFunctions || !c.IsLocalCall(n, imports) then inside
    else if CalleeId(n) in active then Rejected(Recursive(CalleeId(n)))
    else
      var f := c.FunctionOf(CalleeId(n));
      var m := CallAttributes(f, n);
      if exists a | a in f.attributes :: a !in m then Rejected(MissingAttribute)
      else if ImportsOf(f.opsetImports, true).None? then Rejected(VersionOutOfRange)
      else
        Then(inside, NodesFinding(BindNodes(f.nodes, m), Mode(true, false), ImportsOf(f.opsetImports, true).value,
                                active + {CalleeId(n)}, c))
  }

  function AttributesFinding(n: Node, xs: seq<Attribute>, mode: Mode, imports: Imports, active: set<string>,
                             c: Context): Finding
    decreases c.Keys().Keys - active, xs, 0
  {
    if xs == [] then Clean(false)
    else
      Then(Then(ReferenceFinding(n, xs[0], mode, c), BodiesFinding(xs[0], mode, imports, active, c)),
           AttributesFinding(n, xs[1..], mode, imports, active, c))
  }

  function BodiesFinding(a: Attribute, mode: Mode, imports: Imports, active: set<string>, c: Context): Finding
    decreases c.Keys().Keys - active, a, 1
  {
    Then(if a.g.Some? then NodesFinding(a.g.value.nodes, mode, imports, active, c) else Clean(false),
         GraphsFinding(a.graphs, mode, imports, active, c))
  }

  function GraphsFinding(gs: seq<Graph>, mode: Mode, imports: Imports, active: set<string>, c: Context): Finding
    decreases c.Keys().Keys - active, gs, 0
  {
    if gs == [] then Clean(false)
    else Then(NodesFinding(gs[0].nodes, mode, imports, active, c), GraphsFinding(gs[1..], mode, imports, active, c))
  }

  // ----- what the findings mean -----

  // A parameter reference names a known parameter and leaves no optional input to be given explicitly, or, in a
  // function body that is not bound, refers to an attribute of the function.
  predicate ReferenceValid(n: Node, a: Attribute, mode: Mode, c: Context) {
    IsParameterRef(n, a) ==>
      if a.refAttrName != "" then mode.unboundFunction
      else a.isString && a.s != "" && a.s in c.parameters && forall i | 1 <= i < |n.inputs| :: n.inputs[i] == ""
  }

  predicate RefersToAttribute(n: Node, a: Attribute) {
    IsParameterRef(n, a) && a.refAttrName != ""
  }

  predicate ReferencesValid(n: Node, xs: seq<Attribute>, mode: Mode, c: Context) {
    forall a | a in xs :: ReferenceValid(n, a, mode, c)
  }

  // A call that binds: it is not active, supplies every required attribute, and its bound body is clean.
  ghost predicate CallBinds(n: Node, active: set<string>, c: Context) {
    && CalleeId(n) in c.Keys() && CalleeId(n) !in active
    && var f := c.FunctionOf(CalleeId(n));
    && var m := CallAttributes(f, n);
    && (forall a | a in f.attributes :: a in m)
    && InRange(f)
    && NodesFinding(BindNodes(f.nodes, m), Mode(true, false), ImportsOf(f.opsetImports, true).value,
                    active + {CalleeId(n)}, c).Clean?
  }

  ghost predicate NodeFine(n: Node, mode: Mode, imports: Imports, active: set<string>, c: Context) {
    && ReferencesValid(n, n.attributes, mode, c)
    && (mode.bindFunctions && c.IsLocalCall(n, imports) ==> CallBinds(n, active, c))
  }

  ghost predicate AllFine(nodes: set<Node>, mode: Mode, imports: Imports, active: set<string>, c: Context) {
    forall n | n in nodes :: NodeFine(n, mode, imports, active, c)
  }

  // A finding over nodes is clean exactly when every node at every depth is fine.
  lemma {:induction false} NodesFindingMeaning(ns: seq<Node>, mode: Mode, imports: Imports, active: set<string>,
                                               c: Context)
    ensures NodesFinding(ns, mode, imports, active, c).Clean? <==> AllFine(AllNodes(ns), mode, imports, active, c)
    decreases ns, 0
  {
    if ns != [] {
      AttributesFindingMeaning(ns[0], ns[0].attributes, mode, imports, active, c);
      NodesFindingMeaning(ns[1..], mode, imports, active, c);
      assert NodeFinding(ns[0], mode, imports, active, c).Clean? <==>
        NodeFine(ns[0], mode, imports, active, c) &&
        AllFine(AttributesNodes(ns[0].attributes), mode, imports, active, c);
    }
  }

  lemma {:induction false} AttributesFindingMeaning(n: Node, xs: seq<Attribute>, mode: Mode, imports: Imports,
                                                    active: set<string>, c: Context)
    ensures AttributesFinding(n, xs, mode, imports, active, c).Clean? <==>
      ReferencesValid(n, xs, mode, c) && AllFine(AttributesNodes(xs), mode, imports, active, c)
    decreases xs, 0
  {
    if xs != [] {
      BodiesFindingMeaning(xs[0], mode, imports, active, c);
      AttributesFindingMeaning(n, xs[1..], mode, imports, active, c);
      assert ReferenceFinding(n, xs[0], mode, c).Clean? <==> ReferenceValid(n, xs[0], mode, c);
      assert xs == [xs[0]] + xs[1..];
      assert ReferencesValid(n, xs, mode, c) <==>
        ReferenceValid(n, xs[0], mode, c) && ReferencesValid(n, xs[1..], mode, c);
    }
  }

  lemma {:induction false} BodiesFindingMeaning(a: Attribute, mode: Mode, imports: Imports, active: set<string>,
                                                c: Context)
    ensures BodiesFinding(a, mode, imports, active, c).Clean? <==>
      AllFine(AttributeNodes(a), mode, imports, active, c)
    decreases a, 1
  {
    if a.g.Some? {
      NodesFindingMeaning(a.g.value.nodes, mode, imports, active, c);
    }
    GraphsFindingMeaning(a.graphs, mode, imports, active, c);
  }

  lemma {:induction false} GraphsFindingMeaning(gs: seq<Graph>, mode: Mode, imports: Imports, active: set<string>,
                                                c: Context)
    ensures GraphsFinding(gs, mode, imports, active, c).Clean? <==>
      AllFine(GraphsNodes(gs), mode, imports, active, c)
    decreases gs, 0
  {
    if gs != [] {
      NodesFindingMeaning(gs[0].nodes, mode, imports, active, c);
      GraphsFindingMeaning(gs[1..], mode, imports, active, c);
    }
  }

  // ----- when a reference to an attribute is met -----

  ghost predicate SomeRefers(nodes: set<Node>) {
    exists n, a :: n in nodes && a in n.attributes && RefersToAttribute(n, a)
  }

  // A local call, on the registry: the node names a function and resolves to no version, or to one without a schema.
  lemma {:induction false} LocalCallExactly(n: Node, imports: Imports, c: Context)
    ensures c.IsLocalCall(n, imports) <==>
      exists k :: NamesUnregistered(n, Site(c.Keys(), imports, c.registry), k)
  {
    if c.IsLocalCall(n, imports) {
      assert NamesUnregistered(n, Site(c.Keys(), imports, c.registry), c.Keys()[CalleeId(n)]);
    }
  }

  // Without binding, a clean finding is bound exactly when some node at some depth refers to an attribute.
  lemma {:induction false} NodesBoundMeaning(ns: seq<Node>, mode: Mode, imports: Imports, active: set<string>,
                                             c: Context)
    requires !mode.bindFunctions && NodesFinding(ns, mode, imports, active, c).Clean?
    ensures NodesFinding(ns, mode, imports, active, c).bound <==> SomeRefers(AllNodes(ns))
    decreases ns, 0
  {
    if ns != [] {
      var n := ns[0];
      AttributesBoundMeaning(n, n.attributes, mode, imports, active, c);
      NodesBoundMeaning(ns[1..], mode, imports, active, c);
      assert SomeRefers({n}) <==> exists a :: a in n.attributes && RefersToAttribute(n, a);
    }
  }

  lemma {:induction false} AttributesBoundMeaning(n: Node, xs: seq<Attribute>, mode: Mode, imports: Imports,
                                                  active: set<string>, c: Context)
    requires !mode.bindFunctions && AttributesFinding(n, xs, mode, imports, active, c).Clean?
    ensures AttributesFinding(n, xs, mode, imports, active, c).bound <==>
      (exists a :: a in xs && RefersToAttribute(n, a)) || SomeRefers(AttributesNodes(xs))
    decreases xs, 0
  {
    if xs != [] {
      BodiesBoundMeaning(xs[0], mode, imports, active, c);
      AttributesBoundMeaning(n, xs[1..], mode, imports, active, c);
      assert xs == [xs[0]] + xs[1..];
      assert (exists a :: a in xs && RefersToAttribute(n, a)) <==>
        RefersToAttribute(n, xs[0]) || exists a :: a in xs[1..] && RefersToAttribute(n, a);
    }
  }

  lemma {:induction false} BodiesBoundMeaning(a: Attribute, mode: Mode, imports: Imports, active: set<string>,
                                              c: Context)
    requires !mode.bindFunctions && BodiesFinding(a, mode, imports, active, c).Clean?
    ensures BodiesFinding(a, mode, imports, active, c).bound <==> SomeRefers(AttributeNodes(a))
    decreases a, 1
  {
    if a.g.Some? {
      NodesBoundMeaning(a.g.value.nodes, mode, imports, active, c);
    }
    GraphsBoundMeaning(a.graphs, mode, imports, active, c);
  }

  lemma {:induction false} GraphsBoundMeaning(gs: seq<Graph>, mode: Mode, imports: Imports, active: set<string>,
                                              c: Context)
    requires !mode.bindFunctions && GraphsFinding(gs, mode, imports, active, c).Clean?
    ensures GraphsFinding(gs, mode, imports, active, c).bound <==> SomeRefers(GraphsNodes(gs))
    decreases gs, 0
  {
    if gs != [] {
      NodesBoundMeaning(gs[0].nodes, mode, imports, active, c);
      GraphsBoundMeaning(gs[1..], mode, imports, active, c);
    }
  }

  // ----- the traversal on the mutable set `active` -----

  // What is left of a finding once `bound` has been recorded: the failure, if any.
  function FailureOf(f: Finding): Option<Reason> {
    if f.Rejected? then Some(f.reason) else None
  }

  // After a visit with finding `f`: on success the active functions are as before, and a bound reference is recorded.
  predicate Visited(f: Finding, failure: Option<Reason>, before: set<string>, boundBefore: bool, after: set<string>,
                    bound: bool) {
    && failure == FailureOf(f)
    && (f.Clean? ==> after == before && bound == (boundBefore || f.bound))
  }

  class Traversal {
    const c: Context
    var active: set<string>
    var hasBoundReferences: bool

    constructor (c: Context)
      ensures this.c == c && active == {} && !hasBoundReferences
    {
      this.c := c;
      active, hasBoundReferences := {}, false;
    }

    method VisitReference(n: Node, a: Attribute, mode: Mode) returns (failure: Option<Reason>)
      modifies `hasBoundReferences
      ensures Visited(ReferenceFinding(n, a, mode, c), failure, old(active), old(hasBoundReferences), active,
                      hasBoundReferences)
      ensures failure.None? <==> ReferenceValid(n, a, mode, c)
      ensures failure.None? ==> hasBoundReferences == (old(hasBoundReferences) || RefersToAttribute(n, a))
    {
      if IsParameterRef(n, a) {
        if a.refAttrName != "" {
          if !mode.unboundFunction {
            return Some(BoundReference);
          }
          hasBoundReferences := true;
        } else {
          if !a.isString || a.s == "" {
            return Some(BadReference);
          }
          if a.s !in c.parameters {
            return Some(UnknownParameter);
          }
          var i := 1;
          while i < |n.inputs|
            invariant forall j | 1 <= j < i && j < |n.inputs| :: n.inputs[j] == ""
          {
            if n.inputs[i] != "" {
              return Some(ExplicitParameter);
            }
            i := i + 1;
          }
        }
      }
      return None;
    }

    // The lambda `node`.
    method VisitNode(n: Node, mode: Mode, imports: Imports) returns (failure: Option<Reason>)
      modifies this
      ensures Visited(NodeFinding(n, mode, imports, old(active), c), failure, old(active), old(hasBoundReferences),
        active, hasBoundReferences)
      decreases c.Keys().Keys - active, n, 1
    {
      failure := VisitAttributes(n, mode, imports);
      if failure.Some? || !mode.bindFunctions || !c.IsLocalCall(n, imports) {
        return;
      }
      var id := CalleeId(n);
      if id in active {
        return Some(Recursive(id));
      }
      active := active + {id};
      var f := c.FunctionOf(id);
      var m := CallAttributes(f, n);
      var missing := Missing(f, m);
      if missing {
        return Some(MissingAttribute);
      }
      var bound := BindNodes(f.nodes, m);
      var boundImports := BuildImports(f.opsetImports, true);
      if boundImports.None? {
        return Some(VersionOutOfRange);
      }
      failure := VisitNodes(bound, Mode(true, false), boundImports.value);
      if failure.None? {
        active := active - {id};
      }
    }

    method Missing(f: Function, m: AttributeMap) returns (missing: bool)
      ensures missing <==> exists a | a in f.attributes :: a !in m
    {
      for i := 0 to |f.attributes|
        invariant forall j | 0 <= j < i :: f.attributes[j] in m
      {
        if f.attributes[i] !in m {
          return true;
        }
      }
      return false;
    }

    // The nodes of a function or of a graph (the lambda `graph`), in order.
    method VisitNodes(ns: seq<Node>, mode: Mode, imports: Imports) returns (failure: Option<Reason>)
      modifies this
      ensures Visited(NodesFinding(ns, mode, imports, old(active), c), failure, old(active),
        old(hasBoundReferences), active, hasBoundReferences)
      decreases c.Keys().Keys - active, ns, 0
    {
      ghost var all := NodesFinding(ns, mode, imports, active, c);
      ghost var bound := false;
      for i := 0 to |ns|
        invariant active == old(active) && hasBoundReferences == (old(hasBoundReferences) || bound)
        invariant all == Then(Clean(bound), NodesFinding(ns[i..], mode, imports, old(active), c))
      {
        assert ns[i..][0] == ns[i] && ns[i..][1..] == ns[i + 1..];
        ghost var here := NodeFinding(ns[i], mode, imports, active, c);
        failure := VisitNode(ns[i], mode, imports);
        if failure.Some? {
          return;
        }
        bound := bound || here.bound;
      }
      assert ns[|ns|..] == [];
      return None;
    }

    // The loop over the attributes of a node, with their subgraphs.
    method VisitAttributes(n: Node, mode: Mode, imports: Imports) returns (failure: Option<Reason>)
      modifies this
      ensures Visited(AttributesFinding(n, n.attributes, mode, imports, old(active), c), failure, old(active),
        old(hasBoundReferences), active, hasBoundReferences)
      decreases c.Keys().Keys - active, n, 0
    {
      var xs := n.attributes;
      ghost var all := AttributesFinding(n, xs, mode, imports, active, c);
      ghost var bound := false;
      for i := 0 to |xs|
        invariant active == old(active) && hasBoundReferences == (old(hasBoundReferences) || bound)
        invariant all == Then(Clean(bound), AttributesFinding(n, xs[i..], mode, imports, old(active), c))
      {
        assert xs[i..][0] == xs[i] && xs[i..][1..] == xs[i + 1..];
        ghost var here := Then(ReferenceFinding(n, xs[i], mode, c), BodiesFinding(xs[i], mode, imports, active, c));
        failure := VisitReference(n, xs[i], mode);
        if failure.Some? {
          return;
        }
        failure := VisitBodies(xs[i], mode, imports);
        if failure.Some? {
          return;
        }
        bound := bound || here.bound;
      }
      assert xs[|xs|..] == [];
      return None;
    }

    method VisitBodies(a: Attribute, mode: Mode, imports: Imports) returns (failure: Option<Reason>)
      modifies this
      ensures Visited(BodiesFinding(a, mode, imports, old(active), c), failure, old(active),
        old(hasBoundReferences), active, hasBoundReferences)
      decreases c.Keys().Keys - active, a, 1
    {
      ghost var first := if a.g.Some? then NodesFinding(a.g.value.nodes, mode, imports, active, c) else Clean(false);
      if a.g.Some? {
        failure := VisitNodes(a.g.value.nodes, mode, imports);
        if failure.Some? {
          return;
        }
      }
      var gs := a.graphs;
      ghost var all := GraphsFinding(gs, mode, imports, active, c);
      ghost var bound := false;
      for i := 0 to |gs|
        invariant active == old(active)
        invariant hasBoundReferences == (old(hasBoundReferences) || first.bound || bound)
        invariant all == Then(Clean(bound), GraphsFinding(gs[i..], mode, imports, old(active), c))
      {
        assert gs[i..][0] == gs[i] && gs[i..][1..] == gs[i + 1..];
        ghost var here := NodesFinding(gs[i].nodes, mode, imports, active, c);
        failure := VisitNodes(gs[i].nodes, mode, imports);
        if failure.Some? {
          return;
        }
        bound := bound || here.bound;
      }
      assert gs[|gs|..] == [];
      return None;
    }
  }

  // ----- the whole check -----

  // The graph without binding, every function body without binding, and, only if some body refers to an attribute,
  // the graph again with the functions bound.
  function ModelFinding(graph: Graph, imports: Imports, c: Context): Finding {
    var plain := Then(NodesFinding(graph.nodes, Mode(false, false), imports, {}, c), FunctionsFinding(c.functions, c));
    if plain.Rejected? || !plain.bound then plain
    else Then(plain, NodesFinding(graph.nodes, Mode(true, false), imports, {}, c))
  }

  function FunctionsFinding(fs: seq<Function>, c: Context): Finding {
    if fs == [] then Clean(false)
    else if ImportsOf(fs[0].opsetImports, true).None? then Rejected(VersionOutOfRange)
    else
      Then(NodesFinding(fs[0].nodes, Mode(false, true), ImportsOf(fs[0].opsetImports, true).value, {}, c),
           FunctionsFinding(fs[1..], c))
  }

  // Every parameter reference at every depth is valid where it stands.
  ghost predicate ReferencesAllValid(ns: seq<Node>, mode: Mode, c: Context) {
    forall n | n in AllNodes(ns) :: ReferencesValid(n, n.attributes, mode, c)
  }

  ghost predicate FunctionValid(f: Function, c: Context) {
    InRange(f) && ReferencesAllValid(f.nodes, Mode(false, true), c)
  }

  ghost predicate AllValid(fs: seq<Function>, c: Context) {
    forall f | f in fs :: FunctionValid(f, c)
  }

  ghost predicate SomeFunctionRefers(fs: seq<Function>) {
    exists f :: f in fs && SomeRefers(AllNodes(f.nodes))
  }

  lemma {:induction false} FunctionsFindingMeaning(fs: seq<Function>, c: Context)
    ensures FunctionsFinding(fs, c).Clean? <==> AllValid(fs, c)
    ensures FunctionsFinding(fs, c).Clean? ==> (FunctionsFinding(fs, c).bound <==> SomeFunctionRefers(fs))
  {
    if fs != [] {
      var f := fs[0];
      FunctionsFindingMeaning(fs[1..], c);
      assert fs == [f] + fs[1..];
      assert AllValid(fs, c) <==> FunctionValid(f, c) && AllValid(fs[1..], c);
      assert SomeFunctionRefers(fs) <==> SomeRefers(AllNodes(f.nodes)) || SomeFunctionRefers(fs[1..]);
      if InRange(f) {
        FunctionFindingMeaning(f, c);
      }
    }
  }

  lemma {:induction false} FunctionFindingMeaning(f: Function, c: Context)
    requires InRange(f)
    ensures var v := NodesFinding(f.nodes, Mode(false, true), ImportsOf(f.opsetImports, true).value, {}, c);
      (v.Clean? <==> FunctionValid(f, c)) && (v.Clean? ==> (v.bound <==> SomeRefers(AllNodes(f.nodes))))
  {
    var imports := ImportsOf(f.opsetImports, true).value;
    NodesFindingMeaning(f.nodes, Mode(false, true), imports, {}, c);
    if NodesFinding(f.nodes, Mode(false, true), imports, {}, c).Clean? {
      NodesBoundMeaning(f.nodes, Mode(false, true), imports, {}, c);
    }
  }

  // The check passes exactly when every parameter reference of the main graph and of the function bodies is valid, the
  // imports of the functions fit, and, if some body refers to an attribute, every node of the main graph binds.
  lemma {:induction false} ModelFindingMeaning(graph: Graph, imports: Imports, c: Context)
    ensures ModelFinding(graph, imports, c).Clean? <==>
      && ReferencesAllValid(graph.nodes, Mode(false, false), c)
      && AllValid(c.functions, c)
      && (SomeFunctionRefers(c.functions) ==>
           AllFine(AllNodes(graph.nodes), Mode(true, false), imports, {}, c))
  {
    var unbound, bound := Mode(false, false), Mode(true, false);
    NodesFindingMeaning(graph.nodes, unbound, imports, {}, c);
    NodesFindingMeaning(graph.nodes, bound, imports, {}, c);
    FunctionsFindingMeaning(c.functions, c);
    if NodesFinding(graph.nodes, unbound, imports, {}, c).Clean? {
      NodesBoundMeaning(graph.nodes, unbound, imports, {}, c);
      assert !SomeRefers(AllNodes(graph.nodes));
    }
  }

  // A reference by name: to a known parameter, with no optional input given explicitly.
  predicate NamesParameter(n: Node, a: Attribute, c: Context) {
    a.isString && a.s != "" && a.s in c.parameters && forall i | 1 <= i < |n.inputs| :: n.inputs[i] == ""
  }

  // Every attribute "parameter_ref" of a node "Quantize" of the domain "ai.rt", at any depth, refers to an attribute in
  // a function body that is not bound, or names a parameter. Other attributes do not count.
  ghost predicate ParameterRefsFine(ns: seq<Node>, mode: Mode, c: Context) {
    forall n, a | n in AllNodes(ns) && a in n.attributes ::
      n.domain == "ai.rt" && n.opType == "Quantize" && a.name == "parameter_ref" ==>
        if a.refAttrName != "" then mode.unboundFunction else NamesParameter(n, a, c)
  }

  ghost predicate SomeParameterRefRefers(ns: seq<Node>) {
    exists n, a :: n in AllNodes(ns) && a in n.attributes && a.refAttrName != "" &&
      n.domain == "ai.rt" && n.opType == "Quantize" && a.name == "parameter_ref"
  }

  // Without binding, they decide whether a list of nodes is clean, and whether a reference to an attribute was met.
  lemma {:induction false} OnlyParameterRefsCount(ns: seq<Node>, mode: Mode, imports: Imports, active: set<string>,
                                                  c: Context)
    requires !mode.bindFunctions
    ensures NodesFinding(ns, mode, imports, active, c).Clean? <==> ParameterRefsFine(ns, mode, c)
    ensures NodesFinding(ns, mode, imports, active, c).Clean? ==>
      (NodesFinding(ns, mode, imports, active, c).bound <==> SomeParameterRefRefers(ns))
  {
    NodesFindingMeaning(ns, mode, imports, active, c);
    if NodesFinding(ns, mode, imports, active, c).Clean? {
      NodesBoundMeaning(ns, mode, imports, active, c);
    }
  }

  lemma {:induction false} ParameterRefsAreReferences(ns: seq<Node>, mode: Mode, c: Context)
    ensures ReferencesAllValid(ns, mode, c) <==> ParameterRefsFine(ns, mode, c)
    ensures SomeRefers(AllNodes(ns)) <==> SomeParameterRefRefers(ns)
  {
  }

  // The whole check in these terms.
  lemma {:induction false} ModelFindingExactly(graph: Graph, imports: Imports, c: Context)
    ensures ModelFinding(graph, imports, c).Clean? <==>
      && ParameterRefsFine(graph.nodes, Mode(false, false), c)
      && (forall f | f in c.functions :: InRange(f) && ParameterRefsFine(f.nodes, Mode(false, true), c))
      && ((exists f :: f in c.functions && SomeParameterRefRefers(f.nodes)) ==>
           AllFine(AllNodes(graph.nodes), Mode(true, false), imports, {}, c))
  {
    ModelFindingMeaning(graph, imports, c);
    ParameterRefsAreReferences(graph.nodes, Mode(false, false), c);
    forall f | f in c.functions
      ensures FunctionValid(f, c) <==> InRange(f) && ParameterRefsFine(f.nodes, Mode(false, true), c)
      ensures SomeRefers(AllNodes(f.nodes)) <==> SomeParameterRefRefers(f.nodes)
    {
      ParameterRefsAreReferences(f.nodes, Mode(false, true), c);
    }
  }

  predicate BoundTo(x: Attribute, y: Attribute, m: AttributeMap) {
    if x.refAttrName == "" then y == BindAttribute(x, m)
    else x.refAttrName in m && y == m[x.refAttrName].(name := x.name)
  }

  // What binding makes of attributes: a reference takes the value that the call or the defaults have for it and keeps
  // its
  // name, one without a value disappears, and others are bound inside.
  lemma {:induction false} BoundAttributesExactly(xs: seq<Attribute>, m: AttributeMap, y: Attribute)
    ensures y in BindAttributes(xs, m) <==> exists x :: x in xs && BoundTo(x, y, m)
  {
    if xs != [] {
      BoundAttributesExactly(xs[1..], m, y);
      var first := if xs[0].refAttrName == "" then [BindAttribute(xs[0], m)]
        else if xs[0].refAttrName in m then [m[xs[0].refAttrName].(name := xs[0].name)]
        else [];
      assert BindAttributes(xs, m) == first + BindAttributes(xs[1..], m);
      assert y in first <==> BoundTo(xs[0], y, m);
      assert forall x :: x in xs <==> x == xs[0] || x in xs[1..];
    }
  }

  ghost predicate LastNamed(xs: seq<Attribute>, i: int) {
    0 <= i < |xs| && forall j | i < j < |xs| :: xs[j].name != xs[i].name
  }

  // The value for a call is the last attribute of the name that the call has, ...
  lemma {:induction false} CallOverridesDefaults(f: Function, n: Node, i: int)
    requires LastNamed(n.attributes, i)
    ensures n.attributes[i].name in CallAttributes(f, n)
    ensures CallAttributes(f, n)[n.attributes[i].name] == n.attributes[i]
  {
    var xs, d := f.attributeProtos + n.attributes, |f.attributeProtos|;
    assert xs[d + i] == n.attributes[i];
    assert forall j | d + i < j < |xs| :: xs[j] == n.attributes[j - d];
    LastByName(xs, d + i);
  }

  // ... or else the last default of the function; without either there is none.
  lemma {:induction false} DefaultsFillIn(f: Function, n: Node, key: string)
    requires forall a | a in n.attributes :: a.name != key
    ensures key in CallAttributes(f, n) <==> exists a :: a in f.attributeProtos && a.name == key
    ensures forall i | LastNamed(f.attributeProtos, i) && f.attributeProtos[i].name == key ::
      key in CallAttributes(f, n) && CallAttributes(f, n)[key] == f.attributeProtos[i]
  {
    var xs, d := f.attributeProtos + n.attributes, |f.attributeProtos|;
    KeysByName(xs, key);
    forall i | LastNamed(f.attributeProtos, i) && f.attributeProtos[i].name == key
      ensures key in CallAttributes(f, n) && CallAttributes(f, n)[key] == f.attributeProtos[i]
    {
      forall j | i < j < |xs| ensures xs[j].name != key {
        assert j >= d ==> xs[j] == n.attributes[j - d] && xs[j] in n.attributes;
      }
      LastByName(xs, i);
    }
  }

  // A call binds exactly if it is not active, every attribute that the function requires is given by the call or has a
  // default, every version that the function imports fits, and its bound body is clean.
  lemma {:induction false} CallBindsExactly(n: Node, active: set<string>, c: Context)
    ensures CallBinds(n, active, c) <==>
      && CalleeId(n) in c.Keys() && CalleeId(n) !in active
      && var f := c.FunctionOf(CalleeId(n));
      && (forall key | key in f.attributes ::
            (exists a :: a in n.attributes && a.name == key) || exists a :: a in f.attributeProtos && a.name == key)
      && (forall o | o in f.opsetImports :: -2147483648 <= o.version <= 2147483647)
      && InRange(f) && NodesFinding(BindNodes(f.nodes, CallAttributes(f, n)), Mode(true, false),
                      ImportsOf(f.opsetImports, true).value, active + {CalleeId(n)}, c).Clean?
  {
    if CalleeId(n) in c.Keys() {
      var f := c.FunctionOf(CalleeId(n));
      ImportsFit(f.opsetImports, true);
      forall key | key in f.attributes
        ensures key in CallAttributes(f, n) <==>
          (exists a :: a in n.attributes && a.name == key) || exists a :: a in f.attributeProtos && a.name == key
      {
        KeysByName(f.attributeProtos + n.attributes, key);
        assert forall a :: a in f.attributeProtos + n.attributes <==> a in f.attributeProtos || a in n.attributes;
      }
    }
  }

  lemma {:induction false} KeysByName(xs: seq<Attribute>, key: string)
    ensures key in ByName(xs) <==> exists a :: a in xs && a.name == key
  {
    if xs != [] {
      var n := |xs| - 1;
      KeysByName(xs[..n], key);
      assert xs == xs[..n] + [xs[n]];
    }
  }

  lemma {:induction false} LastByName(xs: seq<Attribute>, i: int)
    requires LastNamed(xs, i)
    ensures xs[i].name in ByName(xs) && ByName(xs)[xs[i].name] == xs[i]
  {
    if i < |xs| - 1 {
      LastByName(xs[..|xs| - 1], i);
    }
  }

  method CheckQuantizationParameterReferences(graph: Graph, imports: Imports, c: Context)
    returns (failure: Option<Reason>)
    ensures failure == FailureOf(ModelFinding(graph, imports, c))
  {
    var traversal := new Traversal(c);
    failure := traversal.VisitNodes(graph.nodes, Mode(false, false), imports);
    if failure.Some? {
      return;
    }
    ghost var first := traversal.hasBoundReferences;
    ghost var bound := false;
    for i := 0 to |c.functions|
      invariant traversal.c == c && traversal.active == {} && traversal.hasBoundReferences == (first || bound)
      invariant FunctionsFinding(c.functions, c) == Then(Clean(bound), FunctionsFinding(c.functions[i..], c))
    {
      var f := c.functions[i];
      assert c.functions[i..][0] == f && c.functions[i..][1..] == c.functions[i + 1..];
      var own := BuildImports(f.opsetImports, true);
      if own.None? {
        return Some(VersionOutOfRange);
      }
      ghost var here := NodesFinding(f.nodes, Mode(false, true), own.value, {}, c);
      failure := traversal.VisitNodes(f.nodes, Mode(false, true), own.value);
      if failure.Some? {
        return;
      }
      bound := bound || here.bound;
    }
    assert c.functions[|c.functions|..] == [];
    if traversal.hasBoundReferences {
      failure := traversal.VisitNodes(graph.nodes, Mode(true, false), imports);
    } else {
      failure := None;
    }
  }
}
