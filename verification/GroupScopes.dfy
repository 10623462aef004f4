// Name resolution across nested scopes by a worklist over shared chained maps: describe_operator_group_calls and
// count_constant_inputs (onnx_light/onnx_core/graph_partition.py).

module GroupScopes {
  import opened Basics
  import opened Onnx

  datatype Scope = GraphScope(graph: Graph) | FunctionScope(func: Function)

  // (domain, op_type, overload)
  datatype CallKey = CallKey(domain: string, opType: string, overload: string)

  // How one name of a call is described: the annotation it resolves to, and whether it is a constant.
  datatype Described = Described(name: string, info: Option<ValueInfo>, constant: bool)

  datatype CallReport = CallReport(node: Node, inputs: seq<Described>, outputs: seq<Described>)

  datatype Entry = Entry(key: CallKey, report: CallReport)

  // ----- one scope -----

  function Nodes(s: Scope): seq<Node> {
    match s
    case GraphScope(g) => g.nodes
    case FunctionScope(f) => f.nodes
  }

  function InputNames(s: Scope): set<string> {
    match s
    case GraphScope(g) => set v | v in g.inputs :: v.name
    case FunctionScope(f) => set x | x in f.inputs
  }

  function InitializerNames(s: Scope): set<string> {
    match s
    case GraphScope(g) =>
      set t | t in g.initializers + g.sparseInitializers + g.extendedInitializers :: t.name
    case FunctionScope(_) => {}
  }

  // Names of the present outputs of a list of nodes.
  function OutputNames(ns: seq<Node>): set<string> {
    set n, x | n in ns && x in n.outputs && x != "" :: x
  }

  predicate IsConstantNode(n: Node) {
    n.opType == "Constant" && n.domain in ["", "ai.onnx", "onnx.ai"] && n.overload == ""
  }

  function ConstantOutputs(ns: seq<Node>): set<string> {
    set n, x | n in ns && IsConstantNode(n) && x in n.outputs && x != "" :: x
  }

  // Initializers that no input can override, and outputs of standard Constant nodes.
  function ConstantNames(s: Scope): set<string> {
    (if s.GraphScope? then InitializerNames(s) - InputNames(s) else {}) + ConstantOutputs(Nodes(s))
  }

  // A later annotation of a name replaces an earlier one.
  function Annotations(vs: seq<ValueInfo>): map<string, Option<ValueInfo>> {
    if vs == [] then map[]
    else Annotations(vs[..|vs| - 1])[vs[|vs| - 1].name := Some(vs[|vs| - 1])]
  }

  function InitializerInfos(ts: seq<Initializer>): seq<ValueInfo> {
    seq(|ts|, i requires 0 <= i < |ts| => ValueInfo(ts[i].name, TensorType(ts[i].elemType, ts[i].dims)))
  }

  function LocalNames(s: Scope): set<string> {
    InputNames(s) + InitializerNames(s) + OutputNames(Nodes(s))
  }

  // The annotations of a scope in the order in which they are applied.
  function ScopeAnnotations(s: Scope): seq<ValueInfo> {
    match s
    case GraphScope(g) =>
      InitializerInfos(g.initializers + g.sparseInitializers) + g.valueInfo + (g.inputs + g.outputs)
    case FunctionScope(f) => f.valueInfo
  }

  // The entries of a scope: every name it declares, and every name it annotates.
  function LocalValues(s: Scope): map<string, Option<ValueInfo>> {
    (map x | x in LocalNames(s) :: None) + Annotations(ScopeAnnotations(s))
  }

  function LocalConstants(s: Scope): map<string, bool> {
    (map x | x in LocalNames(s) :: false) + (map x | x in ConstantNames(s) :: true)
  }

  // The subgraphs of a scope, in the order in which they are pushed.
  function AttributeBodies(xs: seq<Attribute>): seq<Graph> {
    if xs == [] then [] else Bodies(xs[0]) + AttributeBodies(xs[1..])
  }

  function NodeAttributes(ns: seq<Node>): seq<Attribute> {
    if ns == [] then [] else ns[0].attributes + NodeAttributes(ns[1..])
  }

  function ScopeAttributes(s: Scope): seq<Attribute> {
    NodeAttributes(Nodes(s)) + if s.FunctionScope? then s.func.attributeProtos else []
  }

  function Children(s: Scope): seq<Graph> {
    AttributeBodies(ScopeAttributes(s))
  }

  function ScopeSize(s: Scope): nat {
    1 + NodesSize(Nodes(s)) + if s.FunctionScope? then AttributesSize(s.func.attributeProtos) else 0
  }

  lemma {:induction false} AttributesSizeConcat(a: seq<Attribute>, b: seq<Attribute>)
    ensures AttributesSize(a + b) == AttributesSize(a) + AttributesSize(b)
  {
    if a == [] {
      assert a + b == b;
    } else {
      assert (a + b)[1..] == a[1..] + b;
      AttributesSizeConcat(a[1..], b);
    }
  }

  lemma {:induction false} AttributeBodiesSize(xs: seq<Attribute>)
    ensures GraphsSize(AttributeBodies(xs)) <= AttributesSize(xs)
  {
    if xs != [] {
      BodiesSize(xs[0]);
      GraphsSizeConcat(Bodies(xs[0]), AttributeBodies(xs[1..]));
      AttributeBodiesSize(xs[1..]);
    }
  }

  lemma {:induction false} NodeAttributesSize(ns: seq<Node>)
    ensures AttributesSize(NodeAttributes(ns)) <= NodesSize(ns)
  {
    if ns != [] {
      AttributesSizeConcat(ns[0].attributes, NodeAttributes(ns[1..]));
      NodeAttributesSize(ns[1..]);
    }
  }

  lemma {:induction false} ChildrenAreSmaller(s: Scope)
    ensures GraphsSize(Children(s)) < ScopeSize(s)
  {
    AttributeBodiesSize(ScopeAttributes(s));
    NodeAttributesSize(Nodes(s));
    AttributesSizeConcat(NodeAttributes(Nodes(s)), if s.FunctionScope? then s.func.attributeProtos else []);
  }

  // ----- resolution along the path of enclosing scopes -----

  // The entry of the innermost layer that has one; layers are listed from the outermost to the innermost.
  function Lookup<V>(layers: seq<map<string, V>>, name: string): Option<V> {
    if layers == [] then None
    else
      var last := layers[|layers| - 1];
      if name in last then Some(last[name]) else Lookup(layers[..|layers| - 1], name)
  }

  lemma {:induction false} LookupIsInnermost<V>(layers: seq<map<string, V>>, name: string)
    ensures Lookup(layers, name).None? <==> forall i | 0 <= i < |layers| :: name !in layers[i]
    ensures Lookup(layers, name).Some? ==> exists i | 0 <= i < |layers| ::
      && name in layers[i] && layers[i][name] == Lookup(layers, name).value
      && forall j | i < j < |layers| :: name !in layers[j]
  {
    if layers != [] {
      var n := |layers| - 1;
      LookupIsInnermost(layers[..n], name);
      if name !in layers[n] && Lookup(layers, name).Some? {
        var i :| 0 <= i < n && name in layers[..n][i] && layers[..n][i][name] == Lookup(layers, name).value &&
          forall j | i < j < n :: name !in layers[..n][j];
        assert name in layers[i];
        forall j | i < j < |layers| ensures name !in layers[j] {
          assert j < n ==> layers[..n][j] == layers[j];
        }
      }
      assert forall i | 0 <= i < n :: layers[..n][i] == layers[i];
    }
  }

  function ValueLayers(path: seq<Scope>): seq<map<string, Option<ValueInfo>>> {
    seq(|path|, i requires 0 <= i < |path| => LocalValues(path[i]))
  }

  function ConstantLayers(path: seq<Scope>): seq<map<string, bool>> {
    seq(|path|, i requires 0 <= i < |path| => LocalConstants(path[i]))
  }

  // `path` ends with the scope that the name is used in. A declared name without annotation hides outer annotations.
  function Describe(path: seq<Scope>, name: string): Described {
    var info := Lookup(ValueLayers(path), name);
    Described(name, if info.Some? then info.value else None, IsConstant(path, name))
  }

  lemma {:induction false} ConstantsAreDeclared(s: Scope)
    ensures ConstantNames(s) <= LocalNames(s) == LocalConstants(s).Keys
    ensures forall x | x in LocalNames(s) :: LocalConstants(s)[x] <==> x in ConstantNames(s)
  {
    assert ConstantOutputs(Nodes(s)) <= OutputNames(Nodes(s));
  }

  predicate IsConstant(path: seq<Scope>, name: string) {
    Lookup(ConstantLayers(path), name) == Some(true)
  }

  // Scope `i` makes the name a constant, and no scope inside it declares the name again.
  ghost predicate ConstantFrom(path: seq<Scope>, name: string, i: int) {
    && 0 <= i < |path| && name in ConstantNames(path[i])
    && forall j | i < j < |path| :: name !in LocalNames(path[j])
  }

  // Whether a name is a constant is up to the innermost scope that declares it.
  lemma {:induction false} DeclaringScopeDecides(path: seq<Scope>, name: string)
    ensures IsConstant(path, name) <==> exists i :: ConstantFrom(path, name, i)
  {
    if path != [] {
      var n := |path| - 1;
      var front := path[..n];
      DeclaringScopeDecides(front, name);
      ConstantsAreDeclared(path[n]);
      assert ConstantLayers(path)[..n] == ConstantLayers(front);
      if name in LocalNames(path[n]) {
        assert ConstantFrom(path, name, n) <==> name in ConstantNames(path[n]);
        assert forall i | i != n :: !ConstantFrom(path, name, i);
      } else {
        assert IsConstant(path, name) <==> IsConstant(front, name);
        forall i ensures ConstantFrom(path, name, i) <==> ConstantFrom(front, name, i) {
          ConstantExtends(path, name, i);
        }
      }
    }
  }

  lemma {:induction false} ConstantExtends(path: seq<Scope>, name: string, i: int)
    requires path != [] && name !in LocalNames(path[|path| - 1])
    ensures ConstantFrom(path, name, i) <==> ConstantFrom(path[..|path| - 1], name, i)
  {
    ConstantsAreDeclared(path[|path| - 1]);
    var front := path[..|path| - 1];
    assert forall j | 0 <= j < |front| :: front[j] == path[j];
  }

  function DescribeAll(path: seq<Scope>, names: seq<string>): seq<Described> {
    seq(|names|, i requires 0 <= i < |names| => Describe(path, names[i]))
  }

  function KeyOf(n: Node): CallKey {
    CallKey(n.domain, n.opType, n.overload)
  }

  // ----- the reports by recursive descent -----

  // The description of one call, in the scope that `path` ends with.
  function Report(path: seq<Scope>, n: Node): CallReport {
    CallReport(n, DescribeAll(path, n.inputs), DescribeAll(path, n.outputs))
  }

  // The calls of the nodes of one scope, in node order.
  function DirectReports(path: seq<Scope>, ns: seq<Node>): seq<Entry> {
    if ns == [] then []
    else
      [Entry(KeyOf(ns[0]), Report(path, ns[0]))] +
      DirectReports(path, ns[1..])
  }

  // A scope under the enclosing scopes `path`: its own calls, then those of its subgraphs, the last subgraph first.
  function ScopeReports(path: seq<Scope>, s: Scope): seq<Entry>
    decreases ScopeSize(s), 0
  {
    ChildrenAreSmaller(s);
    DirectReports(path + [s], Nodes(s)) + ChildReports(path + [s], Children(s))
  }

  function ChildReports(path: seq<Scope>, gs: seq<Graph>): seq<Entry>
    decreases GraphsSize(gs), 1
  {
    if gs == [] then []
    else
      var n := |gs| - 1;
      LastGraphSize(gs);
      ScopeReports(path, GraphScope(gs[n])) + ChildReports(path, gs[..n])
  }

  lemma {:induction false} LastGraphSize(gs: seq<Graph>)
    requires gs != []
    ensures GraphsSize(gs) == GraphsSize(gs[..|gs| - 1]) + GraphSize(gs[|gs| - 1])
  {
    var n := |gs| - 1;
    assert gs == gs[..n] + [gs[n]];
    GraphsSizeConcat(gs[..n], [gs[n]]);
  }

  // The whole model: the functions, last one first, and then the main graph.
  function ModelReports(m: Model): seq<Entry> {
    FunctionReports(m.functions) + ScopeReports([], GraphScope(m.graph))
  }

  function FunctionReports(fs: seq<Function>): seq<Entry> {
    if fs == [] then [] else ScopeReports([], FunctionScope(fs[|fs| - 1])) + FunctionReports(fs[..|fs| - 1])
  }

  // The reports of one key, in order.
  function ForKey(es: seq<Entry>, key: CallKey): seq<CallReport> {
    if es == [] then [] else (if es[0].key == key then [es[0].report] else []) + ForKey(es[1..], key)
  }

  lemma {:induction false} ForKeyConcat(a: seq<Entry>, b: seq<Entry>, key: CallKey)
    ensures ForKey(a + b, key) == ForKey(a, key) + ForKey(b, key)
  {
    if a == [] {
      assert a + b == b;
    } else {
      assert (a + b)[1..] == a[1..] + b;
      ForKeyConcat(a[1..], b, key);
    }
  }

  // ----- every call site exactly once -----

  // The calls with the key at any depth, each described along its own path of scopes.
  function NodesSites(path: seq<Scope>, ns: seq<Node>, key: CallKey): multiset<CallReport>
    decreases ns, 0
  {
    if ns == [] then multiset{}
    else Site(path, ns[0], key) + AttributesSites(path, ns[0].attributes, key) + NodesSites(path, ns[1..], key)
  }

  function Site(path: seq<Scope>, n: Node, key: CallKey): multiset<CallReport> {
    if KeyOf(n) == key then multiset{Report(path, n)} else multiset{}
  }

  function AttributesSites(path: seq<Scope>, xs: seq<Attribute>, key: CallKey): multiset<CallReport>
    decreases xs, 0
  {
    if xs == [] then multiset{}
    else
      (if xs[0].g.Some? then NodesSites(path + [GraphScope(xs[0].g.value)], xs[0].g.value.nodes, key) else multiset{}) +
      GraphsSites(path, xs[0].graphs, key) + AttributesSites(path, xs[1..], key)
  }

  function GraphsSites(path: seq<Scope>, gs: seq<Graph>, key: CallKey): multiset<CallReport>
    decreases gs, 0
  {
    if gs == [] then multiset{}
    else NodesSites(path + [GraphScope(gs[0])], gs[0].nodes, key) + GraphsSites(path, gs[1..], key)
  }

  // The sites of a scope whose enclosing scopes are `path`.
  function ScopeSites(path: seq<Scope>, s: Scope, key: CallKey): multiset<CallReport> {
    NodesSites(path + [s], Nodes(s), key) +
    if s.FunctionScope? then AttributesSites(path + [s], s.func.attributeProtos, key) else multiset{}
  }

  function DirectSites(path: seq<Scope>, ns: seq<Node>, key: CallKey): multiset<CallReport> {
    if ns == [] then multiset{} else Site(path, ns[0], key) + DirectSites(path, ns[1..], key)
  }

  lemma {:induction false} GraphsSitesConcat(path: seq<Scope>, a: seq<Graph>, b: seq<Graph>, key: CallKey)
    ensures GraphsSites(path, a + b, key) == GraphsSites(path, a, key) + GraphsSites(path, b, key)
  {
    if a == [] {
      assert a + b == b;
    } else {
      assert (a + b)[1..] == a[1..] + b;
      GraphsSitesConcat(path, a[1..], b, key);
    }
  }

  lemma {:induction false} AttributeBodiesSites(path: seq<Scope>, xs: seq<Attribute>, key: CallKey)
    ensures GraphsSites(path, AttributeBodies(xs), key) == AttributesSites(path, xs, key)
  {
    if xs != [] {
      var a := xs[0];
      GraphsSitesConcat(path, Bodies(a), AttributeBodies(xs[1..]), key);
      AttributeBodiesSites(path, xs[1..], key);
      if a.g.Some? {
        assert Bodies(a)[1..] == a.graphs;
      } else {
        assert Bodies(a) == a.graphs;
      }
    }
  }

  lemma {:induction false} AttributesSitesConcat(path: seq<Scope>, a: seq<Attribute>, b: seq<Attribute>, key: CallKey)
    ensures AttributesSites(path, a + b, key) == AttributesSites(path, a, key) + AttributesSites(path, b, key)
  {
    if a == [] {
      assert a + b == b;
    } else {
      assert (a + b)[1..] == a[1..] + b;
      AttributesSitesConcat(path, a[1..], b, key);
    }
  }

  lemma {:induction false} NodesSitesSplit(path: seq<Scope>, ns: seq<Node>, key: CallKey)
    ensures NodesSites(path, ns, key) == DirectSites(path, ns, key) + AttributesSites(path, NodeAttributes(ns), key)
  {
    if ns != [] {
      AttributesSitesConcat(path, ns[0].attributes, NodeAttributes(ns[1..]), key);
      NodesSitesSplit(path, ns[1..], key);
    }
  }

  lemma {:induction false} DirectReportsSites(path: seq<Scope>, ns: seq<Node>, key: CallKey)
    ensures multiset(ForKey(DirectReports(path, ns), key)) == DirectSites(path, ns, key)
  {
    if ns != [] {
      assert DirectReports(path, ns)[1..] == DirectReports(path, ns[1..]);
      DirectReportsSites(path, ns[1..], key);
    }
  }

  // The reports of a scope are those of its call sites, at every depth, each one once and along its own path.
  lemma {:induction false} EverySiteOnce(path: seq<Scope>, s: Scope, key: CallKey)
    ensures multiset(ForKey(ScopeReports(path, s), key)) == ScopeSites(path, s, key)
    decreases ScopeSize(s), 0
  {
    var inner := path + [s];
    ChildrenAreSmaller(s);
    ForKeyConcat(DirectReports(inner, Nodes(s)), ChildReports(inner, Children(s)), key);
    DirectReportsSites(inner, Nodes(s), key);
    EveryChildSiteOnce(inner, Children(s), key);
    AttributeBodiesSites(inner, ScopeAttributes(s), key);
    AttributesSitesConcat(inner, NodeAttributes(Nodes(s)), if s.FunctionScope? then s.func.attributeProtos else [],
                          key);
    NodesSitesSplit(inner, Nodes(s), key);
  }

  lemma {:induction false} EveryChildSiteOnce(path: seq<Scope>, gs: seq<Graph>, key: CallKey)
    ensures multiset(ForKey(ChildReports(path, gs), key)) == GraphsSites(path, gs, key)
    decreases GraphsSize(gs), 1
  {
    if gs != [] {
      var n := |gs| - 1;
      LastGraphSize(gs);
      ForKeyConcat(ScopeReports(path, GraphScope(gs[n])), ChildReports(path, gs[..n]), key);
      EverySiteOnce(path, GraphScope(gs[n]), key);
      EveryChildSiteOnce(path, gs[..n], key);
      LastGraphSites(path, gs, key);
    }
  }

  lemma {:induction false} LastGraphSites(path: seq<Scope>, gs: seq<Graph>, key: CallKey)
    requires gs != []
    ensures var n := |gs| - 1;
      GraphsSites(path, gs, key) == GraphsSites(path, gs[..n], key) + ScopeSites(path, GraphScope(gs[n]), key)
  {
    var n := |gs| - 1;
    assert gs == gs[..n] + [gs[n]] && [gs[n]][1..] == [];
    GraphsSitesConcat(path, gs[..n], [gs[n]], key);
  }

  function FunctionsSites(fs: seq<Function>, key: CallKey): multiset<CallReport> {
    if fs == [] then multiset{}
    else ScopeSites([], FunctionScope(fs[|fs| - 1]), key) + FunctionsSites(fs[..|fs| - 1], key)
  }

  lemma {:induction false} EveryFunctionSiteOnce(fs: seq<Function>, key: CallKey)
    ensures multiset(ForKey(FunctionReports(fs), key)) == FunctionsSites(fs, key)
  {
    if fs != [] {
      var n := |fs| - 1;
      ForKeyConcat(ScopeReports([], FunctionScope(fs[n])), FunctionReports(fs[..n]), key);
      EverySiteOnce([], FunctionScope(fs[n]), key);
      EveryFunctionSiteOnce(fs[..n], key);
    }
  }

  // So are those of the whole model.
  lemma {:induction false} EveryModelSiteOnce(m: Model, key: CallKey)
    ensures multiset(ForKey(ModelReports(m), key)) ==
      ScopeSites([], GraphScope(m.graph), key) + FunctionsSites(m.functions, key)
  {
    ForKeyConcat(FunctionReports(m.functions), ScopeReports([], GraphScope(m.graph)), key);
    EveryFunctionSiteOnce(m.functions, key);
    EverySiteOnce([], GraphScope(m.graph), key);
  }

  // ----- chained maps -----

  // collections.ChainMap: lookups go through the parents, updates write to the local map only. Children share parents.
  class ChainMap<V> {
    var local: map<string, V>
    const parent: ChainMap?<V>
    ghost const ancestors: set<ChainMap<V>>

    constructor (local: map<string, V>, parent: ChainMap?<V>)
      requires parent != null ==> parent.Valid()
      ensures Valid() && this.local == local && this.parent == parent
    {
      this.local := local;
      this.parent := parent;
      this.ancestors := if parent == null then {} else {parent} + parent.ancestors;
    }

    ghost predicate Valid()
      decreases ancestors
    {
      && this !in ancestors
      && (parent == null ==> ancestors == {})
      && (parent != null ==> ancestors == {parent} + parent.ancestors && parent !in parent.ancestors && parent.Valid())
    }

    ghost function Outer(): seq<map<string, V>>
      requires Valid()
      reads ancestors
      decreases ancestors
    {
      if parent == null then [] else parent.Outer() + [parent.local]
    }

    ghost function Layers(): seq<map<string, V>>
      requires Valid()
      reads this, ancestors
    {
      Outer() + [local]
    }

    method Update(m: map<string, V>)
      requires Valid()
      modifies this
      ensures local == old(local) + m && Outer() == old(Outer())
    {
      local := local + m;
    }

    function Get(name: string): (r: Option<V>)
      requires Valid()
      reads this, ancestors
      ensures r == Lookup(Layers(), name)
      decreases ancestors
    {
      assert Layers()[..|Layers()| - 1] == Outer();
      if name in local then Some(local[name]) else if parent == null then None else parent.Get(name)
    }
  }

  ghost function LayersOf<V>(c: ChainMap?<V>): seq<map<string, V>>
    requires c != null ==> c.Valid()
    reads if c == null then {} else {c} + c.ancestors
  {
    if c == null then [] else c.Layers()
  }

  // The values of one scope, chained to those it inherits.
  method NewValues(s: Scope, inherited: ChainMap?<Option<ValueInfo>>) returns (values: ChainMap<Option<ValueInfo>>)
    requires inherited != null ==> inherited.Valid()
    ensures values.Valid() && values.Layers() == LayersOf(inherited) + [LocalValues(s)]
  {
    values := new ChainMap(map x | x in LocalNames(s) :: None, inherited);
    assert values.Outer() == LayersOf(inherited);
    ghost var declared := values.local;
    if s.GraphScope? {
      var g := s.graph;
      var infos := InitializerInfos(g.initializers + g.sparseInitializers);
      values.Update(Annotations(infos));
      values.Update(Annotations(g.valueInfo));
      values.Update(Annotations(g.inputs + g.outputs));
      ApplyThree(declared, infos, g.valueInfo, g.inputs + g.outputs);
    } else {
      values.Update(Annotations(s.func.valueInfo));
    }
    assert values.local == LocalValues(s);
  }

  lemma {:induction false} ApplyThree(m: map<string, Option<ValueInfo>>, a: seq<ValueInfo>, b: seq<ValueInfo>,
                                      c: seq<ValueInfo>)
    ensures m + Annotations(a) + Annotations(b) + Annotations(c) == m + Annotations(a + b + c)
  {
    AnnotationsConcat(a, b);
    AnnotationsConcat(a + b, c);
    UpdatesCompose(m, Annotations(a), Annotations(b));
    UpdatesCompose(m, Annotations(a + b), Annotations(c));
  }

  lemma {:induction false} UpdatesCompose<V>(a: map<string, V>, b: map<string, V>, c: map<string, V>)
    ensures a + b + c == a + (b + c)
  {
  }

  method NewConstants(s: Scope, inherited: ChainMap?<bool>) returns (constants: ChainMap<bool>)
    requires inherited != null ==> inherited.Valid()
    ensures constants.Valid() && constants.Layers() == LayersOf(inherited) + [LocalConstants(s)]
  {
    constants := new ChainMap(map x | x in LocalNames(s) :: false, inherited);
    assert constants.Outer() == LayersOf(inherited);
    var names := LocalConstantNames(s);
    constants.Update(map x | x in names :: true);
    assert constants.local == LocalConstants(s);
  }

  lemma {:induction false} AnnotationsConcat(a: seq<ValueInfo>, b: seq<ValueInfo>)
    ensures Annotations(a + b) == Annotations(a) + Annotations(b)
  {
    if b == [] {
      assert a + b == a;
    } else {
      assert (a + b)[..|a + b| - 1] == a + b[..|b| - 1];
      AnnotationsConcat(a, b[..|b| - 1]);
    }
  }

  // _local_constant_names
  method LocalConstantNames(s: Scope) returns (names: set<string>)
    ensures names == ConstantNames(s)
  {
    names := {};
    if s.GraphScope? {
      names := names + (set t | t in s.graph.initializers :: t.name);
      names := names + (set t | t in s.graph.sparseInitializers :: t.name);
      names := names + (set t | t in s.graph.extendedInitializers :: t.name);
      assert names == InitializerNames(s);
      names := names - InputNames(s);
    }
    ghost var start := names;
    var ns := Nodes(s);
    for i := 0 to |ns|
      invariant names == start + ConstantOutputs(ns[..i])
    {
      assert ns[..i + 1] == ns[..i] + [ns[i]];
      if IsConstantNode(ns[i]) {
        names := names + set x | x in ns[i].outputs && x != "";
      }
    }
    assert ns[..|ns|] == ns;
  }

  // ----- count_constant_inputs -----

  // Constants declared in a scope and, recursively, in its subgraphs.
  function ConstantCount(s: Scope): nat
    decreases ScopeSize(s), 0
  {
    ChildrenAreSmaller(s);
    |ConstantNames(s)| + ConstantCounts(Children(s))
  }

  function ConstantCounts(gs: seq<Graph>): nat
    decreases GraphsSize(gs), 1
  {
    if gs == [] then 0
    else
      LastGraphSize(gs);
      ConstantCounts(gs[..|gs| - 1]) + ConstantCount(GraphScope(gs[|gs| - 1]))
  }

  function ScopesCount(scopes: seq<Scope>): nat {
    if scopes == [] then 0 else ScopesCount(scopes[..|scopes| - 1]) + ConstantCount(scopes[|scopes| - 1])
  }

  function ScopesSize(scopes: seq<Scope>): nat {
    if scopes == [] then 0 else ScopesSize(scopes[..|scopes| - 1]) + ScopeSize(scopes[|scopes| - 1])
  }

  function GraphScopes(gs: seq<Graph>): seq<Scope> {
    seq(|gs|, i requires 0 <= i < |gs| => GraphScope(gs[i]))
  }

  function FunctionScopes(fs: seq<Function>): seq<Scope> {
    seq(|fs|, i requires 0 <= i < |fs| => FunctionScope(fs[i]))
  }

  lemma {:induction false} PushedScopes(scopes: seq<Scope>, gs: seq<Graph>)
    ensures ScopesCount(scopes + GraphScopes(gs)) == ScopesCount(scopes) + ConstantCounts(gs)
    ensures ScopesSize(scopes + GraphScopes(gs)) == ScopesSize(scopes) + GraphsSize(gs)
  {
    if gs == [] {
      assert scopes + GraphScopes(gs) == scopes;
    } else {
      var n := |gs| - 1;
      var front, last := scopes + GraphScopes(gs[..n]), GraphScope(gs[n]);
      assert scopes + GraphScopes(gs) == front + [last];
      ScopesTop(front, last);
      LastGraphSize(gs);
      PushedScopes(scopes, gs[..n]);
      assert ScopeSize(last) == GraphSize(gs[n]);
    }
  }

  lemma {:induction false} ScopesTop(scopes: seq<Scope>, s: Scope)
    ensures ScopesCount(scopes + [s]) == ScopesCount(scopes) + ConstantCount(s)
    ensures ScopesSize(scopes + [s]) == ScopesSize(scopes) + ScopeSize(s)
  {
    assert (scopes + [s])[..|scopes|] == scopes;
  }

  lemma {:induction false} GraphScopesConcat(a: seq<Graph>, b: seq<Graph>)
    ensures GraphScopes(a + b) == GraphScopes(a) + GraphScopes(b)
  {
  }

  lemma {:induction false} BodiesScopes(a: Attribute)
    ensures GraphScopes(Bodies(a)) == (if a.g.Some? then [GraphScope(a.g.value)] else []) + GraphScopes(a.graphs)
  {
    if a.g.Some? {
      GraphScopesConcat([a.g.value], a.graphs);
    } else {
      assert Bodies(a) == a.graphs;
    }
  }

  // The loop over the attributes of a scope that extends the worklist.
  method SubScopes(xs: seq<Attribute>) returns (r: seq<Scope>)
    ensures r == GraphScopes(AttributeBodies(xs))
  {
    r := [];
    for i := 0 to |xs|
      invariant r + GraphScopes(AttributeBodies(xs[i..])) == GraphScopes(AttributeBodies(xs))
    {
      assert xs[i..][0] == xs[i] && xs[i..][1..] == xs[i + 1..];
      ghost var before, rest := r, AttributeBodies(xs[i + 1..]);
      GraphScopesConcat(Bodies(xs[i]), rest);
      BodiesScopes(xs[i]);
      if xs[i].g.Some? {
        r := r + [GraphScope(xs[i].g.value)];
        Associative(before, [GraphScope(xs[i].g.value)], GraphScopes(xs[i].graphs));
      }
      r := r + GraphScopes(xs[i].graphs);
      assert r == before + GraphScopes(Bodies(xs[i]));
      Associative(before, GraphScopes(Bodies(xs[i])), GraphScopes(rest));
    }
    assert xs[|xs|..] == [];
  }

  // The count over the worklist is the sum over all scopes of the model.
  method CountConstantInputs(m: Model) returns (count: nat)
    ensures count == ConstantCount(GraphScope(m.graph)) + ScopesCount(FunctionScopes(m.functions))
  {
    count := 0;
    var scopes := [GraphScope(m.graph)] + FunctionScopes(m.functions);
    ghost var total := ScopesCount(scopes);
    while scopes != []
      invariant count + ScopesCount(scopes) == total
      decreases ScopesSize(scopes)
    {
      var scope := scopes[|scopes| - 1];
      scopes := scopes[..|scopes| - 1];
      var names := LocalConstantNames(scope);
      count := count + |names|;
      var children := SubScopes(ScopeAttributes(scope));
      ChildrenAreSmaller(scope);
      PushedScopes(scopes, Children(scope));
      scopes := scopes + children;
    }
    ModelTotal(m.graph, FunctionScopes(m.functions));
  }

  lemma {:induction false} ModelTotal(g: Graph, scopes: seq<Scope>)
    ensures ScopesCount([GraphScope(g)] + scopes) == ConstantCount(GraphScope(g)) + ScopesCount(scopes)
  {
    var all := [GraphScope(g)] + scopes;
    if scopes == [] {
      assert all[..0] == [];
    } else {
      var n := |scopes| - 1;
      assert all[..|all| - 1] == [GraphScope(g)] + scopes[..n];
      ModelTotal(g, scopes[..n]);
    }
  }

  // ----- describe_operator_group_calls -----

  // An entry of the worklist, with the inherited maps (null for the empty dictionary of a root scope).
  datatype Work = Work(scope: Scope, values: ChainMap?<Option<ValueInfo>>, constants: ChainMap?<bool>)

  // The inherited maps of `w` hold exactly the layers of the scopes that enclose it.
  ghost predicate Inherits(w: Work, path: seq<Scope>)
    reads if w.values == null then {} else {w.values} + w.values.ancestors
    reads if w.constants == null then {} else {w.constants} + w.constants.ancestors
  {
    && (w.values != null ==> w.values.Valid())
    && (w.constants != null ==> w.constants.Valid())
    && LayersOf(w.values) == ValueLayers(path)
    && LayersOf(w.constants) == ConstantLayers(path)
  }

  // What the worklist still has to report, the last entry first.
  function WorkReports(scopes: seq<Scope>, paths: seq<seq<Scope>>): seq<Entry>
    requires |scopes| == |paths|
  {
    if scopes == [] then []
    else
      var n := |scopes| - 1;
      ScopeReports(paths[n], scopes[n]) + WorkReports(scopes[..n], paths[..n])
  }

  function Repeat(path: seq<Scope>, n: nat): seq<seq<Scope>> {
    seq(n, _ => path)
  }

  // Pushing the subgraphs of a scope puts their reports in front of the others.
  lemma {:induction false} PushedReports(scopes: seq<Scope>, paths: seq<seq<Scope>>, gs: seq<Graph>, path: seq<Scope>)
    requires |scopes| == |paths|
    ensures WorkReports(scopes + GraphScopes(gs), paths + Repeat(path, |gs|)) ==
      ChildReports(path, gs) + WorkReports(scopes, paths)
  {
    if gs == [] {
      assert scopes + GraphScopes(gs) == scopes && paths + Repeat(path, 0) == paths;
    } else {
      var n := |gs| - 1;
      var front, last := scopes + GraphScopes(gs[..n]), GraphScope(gs[n]);
      var before := paths + Repeat(path, n);
      assert scopes + GraphScopes(gs) == front + [last];
      assert paths + Repeat(path, |gs|) == before + [path];
      WorkReportsTop(front, before, last, path);
      PushedReports(scopes, paths, gs[..n], path);
      LastGraphSize(gs);
      Associative(ScopeReports(path, last), ChildReports(path, gs[..n]), WorkReports(scopes, paths));
    }
  }

  // One round of the worklist: the calls of the popped scope, then whatever is on the list with its subgraphs pushed.
  lemma {:induction false} RoundReports(scopes: seq<Scope>, paths: seq<seq<Scope>>, s: Scope, path: seq<Scope>)
    requires |scopes| == |paths|
    ensures WorkReports(scopes + [s], paths + [path]) ==
      DirectReports(path + [s], Nodes(s)) +
      WorkReports(scopes + GraphScopes(Children(s)), paths + Repeat(path + [s], |Children(s)|))
  {
    WorkReportsTop(scopes, paths, s, path);
    PushedReports(scopes, paths, Children(s), path + [s]);
    Associative(DirectReports(path + [s], Nodes(s)), ChildReports(path + [s], Children(s)), WorkReports(scopes, paths));
  }

  lemma {:induction false} WorkReportsTop(scopes: seq<Scope>, paths: seq<seq<Scope>>, s: Scope, path: seq<Scope>)
    requires |scopes| == |paths|
    ensures WorkReports(scopes + [s], paths + [path]) == ScopeReports(path, s) + WorkReports(scopes, paths)
  {
    assert (scopes + [s])[..|scopes|] == scopes && (paths + [path])[..|paths|] == paths;
  }

  // The description of one name, looked up in the chained maps.
  method DescribeName(name: string, values: ChainMap<Option<ValueInfo>>, constants: ChainMap<bool>,
                      ghost path: seq<Scope>)
    returns (d: Described)
    requires values.Valid() && values.Layers() == ValueLayers(path)
    requires constants.Valid() && constants.Layers() == ConstantLayers(path)
    ensures d == Describe(path, name)
  {
    var info := values.Get(name);
    var constant := constants.Get(name);
    d := Described(name, if info.Some? then info.value else None, constant == Some(true));
  }

  method DescribeNames(names: seq<string>, values: ChainMap<Option<ValueInfo>>, constants: ChainMap<bool>,
                       ghost path: seq<Scope>)
    returns (ds: seq<Described>)
    requires values.Valid() && values.Layers() == ValueLayers(path)
    requires constants.Valid() && constants.Layers() == ConstantLayers(path)
    ensures ds == DescribeAll(path, names)
  {
    ds := [];
    for i := 0 to |names|
      invariant |ds| == i && forall j | 0 <= j < i :: ds[j] == Describe(path, names[j])
    {
      var d := DescribeName(names[i], values, constants, path);
      ds := ds + [d];
    }
  }

  type Reports = map<CallKey, seq<CallReport>>

  // Adds the entries of `es`, in order, under those keys that `reports` already has.
  function AddAll(reports: Reports, es: seq<Entry>): (r: Reports)
    ensures r.Keys == reports.Keys
    ensures forall key | key in reports :: r[key] == reports[key] + ForKey(es, key)
  {
    map key | key in reports :: reports[key] + ForKey(es, key)
  }

  lemma {:induction false} AddAllConcat(reports: Reports, a: seq<Entry>, b: seq<Entry>)
    ensures AddAll(AddAll(reports, a), b) == AddAll(reports, a + b)
  {
    forall key | key in reports ensures AddAll(AddAll(reports, a), b)[key] == AddAll(reports, a + b)[key] {
      ForKeyConcat(a, b, key);
    }
  }

  // The loop over the nodes of one scope.
  method ReportNodes(reports: Reports, ns: seq<Node>, values: ChainMap<Option<ValueInfo>>, constants: ChainMap<bool>,
                     ghost path: seq<Scope>)
    returns (r: Reports)
    requires values.Valid() && values.Layers() == ValueLayers(path)
    requires constants.Valid() && constants.Layers() == ConstantLayers(path)
    ensures r == AddAll(reports, DirectReports(path, ns))
  {
    r := reports;
    for i := 0 to |ns|
      invariant AddAll(r, DirectReports(path, ns[i..])) == AddAll(reports, DirectReports(path, ns))
      invariant r.Keys == reports.Keys
    {
      assert ns[i..][0] == ns[i] && ns[i..][1..] == ns[i + 1..];
      var n := ns[i];
      var key := KeyOf(n);
      ghost var entry := Entry(key, CallReport(n, DescribeAll(path, n.inputs), DescribeAll(path, n.outputs)));
      AddAllConcat(r, [entry], DirectReports(path, ns[i + 1..]));
      SingleEntry(r, entry);
      if key in r {
        var inputs := DescribeNames(n.inputs, values, constants, path);
        var outputs := DescribeNames(n.outputs, values, constants, path);
        r := r[key := r[key] + [CallReport(n, inputs, outputs)]];
      }
    }
    assert ns[|ns|..] == [];
    AddNothing(r);
  }

  lemma {:induction false} AddNothing(reports: Reports)
    ensures AddAll(reports, []) == reports
  {
    forall key | key in reports ensures AddAll(reports, [])[key] == reports[key] {
      assert ForKey([], key) == [];
    }
  }

  lemma {:induction false} SingleEntry(reports: Reports, e: Entry)
    ensures AddAll(reports, [e]) == if e.key in reports then reports[e.key := reports[e.key] + [e.report]] else reports
  {
    var r := AddAll(reports, [e]);
    forall key | key in reports ensures r[key] == if e.key == key then reports[key] + [e.report] else reports[key] {
      assert [e][1..] == [] && ForKey([e][1..], key) == [];
    }
  }

  function ChildWork(gs: seq<Graph>, values: ChainMap?<Option<ValueInfo>>, constants: ChainMap?<bool>): seq<Work> {
    seq(|gs|, i requires 0 <= i < |gs| => Work(GraphScope(gs[i]), values, constants))
  }

  lemma {:induction false} ChildWorkConcat(a: seq<Graph>, b: seq<Graph>, values: ChainMap?<Option<ValueInfo>>,
                                           constants: ChainMap?<bool>)
    ensures ChildWork(a + b, values, constants) == ChildWork(a, values, constants) + ChildWork(b, values, constants)
  {
  }

  function WorkScopes(work: seq<Work>): seq<Scope> {
    seq(|work|, i requires 0 <= i < |work| => work[i].scope)
  }

  // The loop over the attributes of a scope that extends the worklist with its subgraphs, which share its maps.
  method PushChildren(work: seq<Work>, xs: seq<Attribute>, values: ChainMap?<Option<ValueInfo>>,
                      constants: ChainMap?<bool>)
    returns (r: seq<Work>)
    ensures r == work + ChildWork(AttributeBodies(xs), values, constants)
  {
    r := work;
    for i := 0 to |xs|
      invariant r + ChildWork(AttributeBodies(xs[i..]), values, constants) ==
        work + ChildWork(AttributeBodies(xs), values, constants)
    {
      assert xs[i..][0] == xs[i] && xs[i..][1..] == xs[i + 1..];
      ghost var before, rest := r, AttributeBodies(xs[i + 1..]);
      ChildWorkConcat(Bodies(xs[i]), rest, values, constants);
      if xs[i].g.Some? {
        r := r + [Work(GraphScope(xs[i].g.value), values, constants)];
      }
      r := r + ChildWork(xs[i].graphs, values, constants);
      assert r == before + ChildWork(Bodies(xs[i]), values, constants);
      Associative(before, ChildWork(Bodies(xs[i]), values, constants), ChildWork(rest, values, constants));
    }
    assert xs[|xs|..] == [];
  }

  function ReportKeys(functions: seq<Function>): set<CallKey> {
    set f | f in functions :: CallKey(f.domain, f.name, f.overload)
  }

  // The accounting of one round: reports made plus reports due stay the same, and the scopes get fewer or smaller.
  lemma {:induction false} RoundAccounts(reports: Reports, scopes: seq<Scope>, paths: seq<seq<Scope>>, s: Scope,
                                         path: seq<Scope>)
    requires |scopes| == |paths|
    ensures var next, nextPaths := scopes + GraphScopes(Children(s)), paths + Repeat(path + [s], |Children(s)|);
      && AddAll(AddAll(reports, DirectReports(path + [s], Nodes(s))), WorkReports(next, nextPaths)) ==
           AddAll(reports, WorkReports(scopes + [s], paths + [path]))
      && ScopesSize(next) < ScopesSize(scopes + [s])
  {
    RoundReports(scopes, paths, s, path);
    AddAllConcat(reports, DirectReports(path + [s], Nodes(s)),
                 WorkReports(scopes + GraphScopes(Children(s)), paths + Repeat(path + [s], |Children(s)|)));
    ScopesTop(scopes, s);
    PushedScopes(scopes, Children(s));
    ChildrenAreSmaller(s);
  }

  lemma {:induction false} WorkScopesTop(work: seq<Work>, paths: seq<seq<Scope>>)
    requires work != [] && |paths| == |work|
    ensures var n := |work| - 1;
      WorkScopes(work) == WorkScopes(work[..n]) + [work[n].scope] && paths == paths[..n] + [paths[n]]
  {
  }

  lemma {:induction false} WorkScopesPushed(work: seq<Work>, gs: seq<Graph>, values: ChainMap?<Option<ValueInfo>>,
                                            constants: ChainMap?<bool>)
    ensures WorkScopes(work + ChildWork(gs, values, constants)) == WorkScopes(work) + GraphScopes(gs)
  {
  }

  lemma {:induction false} LayersExtend(path: seq<Scope>, s: Scope)
    ensures ValueLayers(path + [s]) == ValueLayers(path) + [LocalValues(s)]
    ensures ConstantLayers(path + [s]) == ConstantLayers(path) + [LocalConstants(s)]
  {
    var longer := path + [s];
    assert longer[|path|] == s && forall i | 0 <= i < |path| :: longer[i] == path[i];
  }

  // Subgraphs inherit the maps of their scope, and the rest of the worklist keeps its own.
  lemma {:induction false} PushedInherit(work: seq<Work>, paths: seq<seq<Scope>>, gs: seq<Graph>,
                                         values: ChainMap<Option<ValueInfo>>, constants: ChainMap<bool>,
                                         path: seq<Scope>)
    requires |work| == |paths| && forall i | 0 <= i < |work| :: Inherits(work[i], paths[i])
    requires values.Valid() && values.Layers() == ValueLayers(path)
    requires constants.Valid() && constants.Layers() == ConstantLayers(path)
    ensures var work', paths' := work + ChildWork(gs, values, constants), paths + Repeat(path, |gs|);
      |work'| == |paths'| && forall i | 0 <= i < |work'| :: Inherits(work'[i], paths'[i])
  {
    var work', paths' := work + ChildWork(gs, values, constants), paths + Repeat(path, |gs|);
    forall i | 0 <= i < |work'| ensures Inherits(work'[i], paths'[i]) {
      if i < |work| {
        assert Inherits(work[i], paths[i]);
      } else {
        assert work'[i] == ChildWork(gs, values, constants)[i - |work|];
      }
    }
  }

  // The body of the loop.
  method Round(reports: Reports, work: seq<Work>, ghost paths: seq<seq<Scope>>)
    returns (reports': Reports, work': seq<Work>, ghost paths': seq<seq<Scope>>)
    requires work != [] && |work| == |paths| && forall i | 0 <= i < |work| :: Inherits(work[i], paths[i])
    ensures |work'| == |paths'| && forall i | 0 <= i < |work'| :: Inherits(work'[i], paths'[i])
    ensures reports'.Keys == reports.Keys
    ensures AddAll(reports', WorkReports(WorkScopes(work'), paths')) ==
      AddAll(reports, WorkReports(WorkScopes(work), paths))
    ensures ScopesSize(WorkScopes(work')) < ScopesSize(WorkScopes(work))
  {
    var n := |work| - 1;
    var top := work[n];
    ghost var path := paths[n] + [top.scope];
    var values, constants;
    reports', values, constants := EnterScope(reports, top, paths[n]);
    work' := PushChildren(work[..n], ScopeAttributes(top.scope), values, constants);
    paths' := paths[..n] + Repeat(path, |Children(top.scope)|);
    forall i | 0 <= i < n ensures Inherits(work[..n][i], paths[..n][i]) {
      assert Inherits(work[i], paths[i]);
    }
    PushedInherit(work[..n], paths[..n], Children(top.scope), values, constants, path);
    RoundAccounts(reports, WorkScopes(work[..n]), paths[..n], top.scope, paths[n]);
    WorkScopesTop(work, paths);
    WorkScopesPushed(work[..n], Children(top.scope), values, constants);
  }

  // The maps of the popped scope, and the reports of its own calls.
  method EnterScope(reports: Reports, top: Work, ghost path: seq<Scope>)
    returns (reports': Reports, values: ChainMap<Option<ValueInfo>>, constants: ChainMap<bool>)
    requires Inherits(top, path)
    ensures values.Valid() && values.Layers() == ValueLayers(path + [top.scope])
    ensures constants.Valid() && constants.Layers() == ConstantLayers(path + [top.scope])
    ensures reports' == AddAll(reports, DirectReports(path + [top.scope], Nodes(top.scope)))
  {
    values := NewValues(top.scope, top.values);
    constants := NewConstants(top.scope, top.constants);
    LayersExtend(path, top.scope);
    reports' := ReportNodes(reports, Nodes(top.scope), values, constants, path + [top.scope]);
  }

  function InitialWork(m: Model): seq<Work> {
    [Work(GraphScope(m.graph), null, null)] +
    seq(|m.functions|, i requires 0 <= i < |m.functions| => Work(FunctionScope(m.functions[i]), null, null))
  }

  lemma {:induction false} InitialWorkReports(m: Model)
    ensures WorkReports(WorkScopes(InitialWork(m)), Repeat([], |InitialWork(m)|)) == ModelReports(m)
  {
    InitialScopes(m);
    FunctionsFirst(GraphScope(m.graph), m.functions);
  }

  lemma {:induction false} InitialScopes(m: Model)
    ensures WorkScopes(InitialWork(m)) == [GraphScope(m.graph)] + FunctionScopes(m.functions)
    ensures |InitialWork(m)| == 1 + |m.functions|
  {
  }

  lemma {:induction false} InitialInherit(m: Model)
    ensures forall i | 0 <= i < |InitialWork(m)| :: Inherits(InitialWork(m)[i], [])
  {
  }

  // The worklist leaves under each requested key the reports of recursive descent, each call resolved along its own
  // path of enclosing scopes.
  method DescribeOperatorGroupCalls(m: Model, functions: seq<Function>) returns (reports: Reports)
    ensures reports.Keys == ReportKeys(functions)
    ensures forall key | key in reports :: reports[key] == ForKey(ModelReports(m), key)
  {
    var empty: Reports := map key | key in ReportKeys(functions) :: [];
    reports := empty;
    var work := InitialWork(m);
    ghost var paths := Repeat([], |work|);
    InitialWorkReports(m);
    InitialInherit(m);
    while work != []
      invariant |work| == |paths| && forall i | 0 <= i < |work| :: Inherits(work[i], paths[i])
      invariant reports.Keys == empty.Keys
      invariant AddAll(reports, WorkReports(WorkScopes(work), paths)) == AddAll(empty, ModelReports(m))
      decreases ScopesSize(WorkScopes(work))
    {
      reports, work, paths := Round(reports, work, paths);
    }
    AddNothing(reports);
  }

  // Functions are popped before the main graph, the last one first.
  lemma {:induction false} FunctionsFirst(g: Scope, fs: seq<Function>)
    ensures WorkReports([g] + FunctionScopes(fs), Repeat([], 1 + |fs|)) == FunctionReports(fs) + ScopeReports([], g)
  {
    if fs == [] {
      assert [g] + FunctionScopes(fs) == [] + [g] && Repeat([], 1) == [] + [[]];
      WorkReportsTop([], [], g, []);
    } else {
      var n := |fs| - 1;
      var front, last := [g] + FunctionScopes(fs[..n]), FunctionScope(fs[n]);
      assert [g] + FunctionScopes(fs) == front + [last] && Repeat([], 1 + |fs|) == Repeat([], |fs|) + [[]];
      WorkReportsTop(front, Repeat([], |fs|), last, []);
      FunctionsFirst(g, fs[..n]);
      Associative(ScopeReports([], last), FunctionReports(fs[..n]), ScopeReports([], g));
    }
  }
}
