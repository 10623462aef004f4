// Which annotation a name of a call resolves to, and which names are constants, said of the messages alone: what the
// chained maps of describe_operator_group_calls hold (onnx_light/onnx_core/graph_partition.py).

module ScopeResolution {
  import opened Basics
  import opened Onnx
  import opened GroupScopes

  // ----- what a scope says about a name -----

  // The last annotation of the name in the list.
  function LastInfo(vs: seq<ValueInfo>, name: string): Option<ValueInfo> {
    if vs == [] then None
    else if vs[|vs| - 1].name == name then Some(vs[|vs| - 1])
    else LastInfo(vs[..|vs| - 1], name)
  }

  // The type and shape of the last tensor of the name in the list.
  function LastTensor(ts: seq<Initializer>, name: string): Option<ValueInfo> {
    if ts == [] then None
    else
      var last := ts[|ts| - 1];
      if last.name == name then Some(ValueInfo(name, TensorType(last.elemType, last.dims)))
      else LastTensor(ts[..|ts| - 1], name)
  }

  lemma {:induction false} LastInfoAt(vs: seq<ValueInfo>, name: string, i: int)
    requires 0 <= i < |vs| && vs[i].name == name && forall j | i < j < |vs| :: vs[j].name != name
    ensures LastInfo(vs, name) == Some(vs[i])
  {
    if i < |vs| - 1 {
      LastInfoAt(vs[..|vs| - 1], name, i);
    }
  }

  lemma {:induction false} NoInfo(vs: seq<ValueInfo>, name: string)
    ensures LastInfo(vs, name).None? <==> forall i | 0 <= i < |vs| :: vs[i].name != name
  {
    if vs != [] {
      NoInfo(vs[..|vs| - 1], name);
    }
  }

  lemma {:induction false} LastTensorAt(ts: seq<Initializer>, name: string, i: int)
    requires 0 <= i < |ts| && ts[i].name == name && forall j | i < j < |ts| :: ts[j].name != name
    ensures LastTensor(ts, name) == Some(ValueInfo(name, TensorType(ts[i].elemType, ts[i].dims)))
  {
    if i < |ts| - 1 {
      LastTensorAt(ts[..|ts| - 1], name, i);
    }
  }

  lemma {:induction false} NoTensor(ts: seq<Initializer>, name: string)
    ensures LastTensor(ts, name).None? <==> forall i | 0 <= i < |ts| :: ts[i].name != name
  {
    if ts != [] {
      NoTensor(ts[..|ts| - 1], name);
    }
  }

  function OrElse(first: Option<ValueInfo>, second: Option<ValueInfo>): Option<ValueInfo> {
    if first.Some? then first else second
  }

  // What a scope says about a name: in a graph its outputs come first, then its inputs, its value_info, its sparse and
  // its dense initializers; in a function there is only value_info.
  function Annotation(s: Scope, name: string): Option<ValueInfo> {
    match s
    case GraphScope(g) =>
      OrElse(LastInfo(g.outputs, name),
             OrElse(LastInfo(g.inputs, name),
                    OrElse(LastInfo(g.valueInfo, name),
                           OrElse(LastTensor(g.sparseInitializers, name), LastTensor(g.initializers, name)))))
    case FunctionScope(f) => LastInfo(f.valueInfo, name)
  }

  // The scope has the name as an input, as an initializer of any kind, or as an output of a node.
  ghost predicate Declares(s: Scope, name: string) {
    || (s.GraphScope? && exists v :: v in s.graph.inputs && v.name == name)
    || (s.GraphScope? && exists t :: t in s.graph.initializers && t.name == name)
    || (s.GraphScope? && exists t :: t in s.graph.sparseInitializers && t.name == name)
    || (s.GraphScope? && exists t :: t in s.graph.extendedInitializers && t.name == name)
    || (s.FunctionScope? && name in s.func.inputs)
    || (name != "" && exists n :: n in Nodes(s) && name in n.outputs)
  }

  ghost predicate Mentions(s: Scope, name: string) {
    Declares(s, name) || Annotation(s, name).Some?
  }

  lemma {:induction false} AnnotationsAreLast(vs: seq<ValueInfo>, name: string)
    ensures name in Annotations(vs) <==> LastInfo(vs, name).Some?
    ensures name in Annotations(vs) ==> Annotations(vs)[name] == LastInfo(vs, name)
  {
    if vs != [] {
      AnnotationsAreLast(vs[..|vs| - 1], name);
    }
  }

  lemma {:induction false} LastInfoConcat(a: seq<ValueInfo>, b: seq<ValueInfo>, name: string)
    ensures LastInfo(a + b, name) == OrElse(LastInfo(b, name), LastInfo(a, name))
  {
    if b == [] {
      assert a + b == a;
    } else {
      assert (a + b)[..|a + b| - 1] == a + b[..|b| - 1];
      LastInfoConcat(a, b[..|b| - 1], name);
    }
  }

  lemma {:induction false} LastInfoOfTensors(ts: seq<Initializer>, name: string)
    ensures LastInfo(InitializerInfos(ts), name) == LastTensor(ts, name)
  {
    if ts != [] {
      var n := |ts| - 1;
      assert InitializerInfos(ts)[..n] == InitializerInfos(ts[..n]);
      LastInfoOfTensors(ts[..n], name);
    }
  }

  lemma {:induction false} ScopeAnnotationsAre(s: Scope, name: string)
    ensures LastInfo(ScopeAnnotations(s), name) == Annotation(s, name)
  {
    if s.GraphScope? {
      var g := s.graph;
      var tensors := InitializerInfos(g.initializers + g.sparseInitializers);
      LastInfoConcat(tensors + g.valueInfo, g.inputs + g.outputs, name);
      LastInfoConcat(tensors, g.valueInfo, name);
      LastInfoConcat(g.inputs, g.outputs, name);
      assert tensors == InitializerInfos(g.initializers) + InitializerInfos(g.sparseInitializers);
      LastInfoConcat(InitializerInfos(g.initializers), InitializerInfos(g.sparseInitializers), name);
      LastInfoOfTensors(g.initializers, name);
      LastInfoOfTensors(g.sparseInitializers, name);
    }
  }

  lemma {:induction false} LocalNamesAreDeclared(s: Scope, name: string)
    ensures name in LocalNames(s) <==> Declares(s, name)
  {
    if s.GraphScope? {
      var g := s.graph;
      assert name in InputNames(s) <==> exists v :: v in g.inputs && v.name == name;
      assert name in InitializerNames(s) <==>
        exists t :: t in g.initializers + g.sparseInitializers + g.extendedInitializers && t.name == name;
    }
    assert name in OutputNames(Nodes(s)) <==> name != "" && exists n :: n in Nodes(s) && name in n.outputs;
  }

  // The entry of one scope.
  lemma {:induction false} LocalValueIs(s: Scope, name: string)
    ensures name in LocalValues(s) <==> Mentions(s, name)
    ensures name in LocalValues(s) ==> LocalValues(s)[name] == Annotation(s, name)
  {
    AnnotationsAreLast(ScopeAnnotations(s), name);
    ScopeAnnotationsAre(s, name);
    LocalNamesAreDeclared(s, name);
  }

  // Scope `i` is the innermost one that declares or annotates the name.
  ghost predicate MentionedLast(path: seq<Scope>, name: string, i: int) {
    0 <= i < |path| && Mentions(path[i], name) && forall j | i < j < |path| :: !Mentions(path[j], name)
  }

  lemma {:induction false} LookupAt<V>(layers: seq<map<string, V>>, name: string, i: int)
    requires 0 <= i < |layers| && name in layers[i] && forall j | i < j < |layers| :: name !in layers[j]
    ensures Lookup(layers, name) == Some(layers[i][name])
  {
    var n := |layers| - 1;
    if i < n {
      LookupAt(layers[..n], name, i);
    }
  }

  // The innermost scope that declares or annotates a name decides its annotation; where that scope only declares it,
  // there is none.
  lemma {:induction false} MentioningScopeDecides(path: seq<Scope>, name: string, i: int)
    requires MentionedLast(path, name, i)
    ensures Describe(path, name).info == Annotation(path[i], name)
  {
    LocalValueIs(path[i], name);
    forall j | i < j < |path| ensures name !in ValueLayers(path)[j] {
      LocalValueIs(path[j], name);
    }
    LookupAt(ValueLayers(path), name, i);
  }

  // A name that no scope knows has none either.
  lemma {:induction false} UnknownNames(path: seq<Scope>, name: string)
    requires forall i | 0 <= i < |path| :: !Mentions(path[i], name)
    ensures Describe(path, name).info == None
  {
    LookupIsInnermost(ValueLayers(path), name);
    forall i | 0 <= i < |path| ensures name !in ValueLayers(path)[i] {
      LocalValueIs(path[i], name);
    }
  }

  // A constant of a scope is an initializer that no input overrides, or an output of a standard Constant node.
  lemma {:induction false} ConstantNamesExactly(s: Scope, name: string)
    ensures name in ConstantNames(s) <==>
      || (s.GraphScope? && !(exists v :: v in s.graph.inputs && v.name == name) &&
           ((exists t :: t in s.graph.initializers && t.name == name) ||
            (exists t :: t in s.graph.sparseInitializers && t.name == name) ||
            exists t :: t in s.graph.extendedInitializers && t.name == name))
      || (name != "" && exists n :: n in Nodes(s) && name in n.outputs && n.opType == "Constant" &&
                                    n.overload == "" && n.domain in {"", "ai.onnx", "onnx.ai"})
  {
    if s.GraphScope? {
      var g := s.graph;
      assert name in InputNames(s) <==> exists v :: v in g.inputs && v.name == name;
      assert name in InitializerNames(s) <==>
        exists t :: t in g.initializers + g.sparseInitializers + g.extendedInitializers && t.name == name;
    }
    assert name in ConstantOutputs(Nodes(s)) <==>
      name != "" && exists n :: n in Nodes(s) && name in n.outputs && IsConstantNode(n);
  }

  // ----- which nodes are reported -----

  // The node is a call with the key.
  predicate HasKey(n: Node, key: CallKey) {
    n.domain == key.domain && n.opType == key.opType && n.overload == key.overload
  }

  ghost predicate Reported(reports: multiset<CallReport>, n: Node) {
    exists r :: r in reports && r.node == n
  }

  lemma {:induction false} ReportedInEither(a: multiset<CallReport>, b: multiset<CallReport>, n: Node)
    ensures Reported(a + b, n) <==> Reported(a, n) || Reported(b, n)
  {
  }

  lemma {:induction false} NodesSitesExactly(path: seq<Scope>, ns: seq<Node>, key: CallKey, n: Node)
    ensures Reported(NodesSites(path, ns, key), n) <==> n in AllNodes(ns) && HasKey(n, key)
    decreases ns, 0
  {
    if ns != [] {
      AttributesSitesExactly(path, ns[0].attributes, key, n);
      NodesSitesExactly(path, ns[1..], key, n);
      var first, inside := Site(path, ns[0], key), AttributesSites(path, ns[0].attributes, key);
      assert Reported(first, n) <==> n == ns[0] && HasKey(n, key) by {
        assert Report(path, ns[0]) in multiset{Report(path, ns[0])};
      }
      ReportedInEither(first, inside, n);
      ReportedInEither(first + inside, NodesSites(path, ns[1..], key), n);
    }
  }

  lemma {:induction false} AttributesSitesExactly(path: seq<Scope>, xs: seq<Attribute>, key: CallKey, n: Node)
    ensures Reported(AttributesSites(path, xs, key), n) <==> n in AttributesNodes(xs) && HasKey(n, key)
    decreases xs, 0
  {
    if xs != [] {
      var g := if xs[0].g.Some? then NodesSites(path + [GraphScope(xs[0].g.value)], xs[0].g.value.nodes, key)
        else multiset{};
      if xs[0].g.Some? {
        NodesSitesExactly(path + [GraphScope(xs[0].g.value)], xs[0].g.value.nodes, key, n);
      }
      GraphsSitesExactly(path, xs[0].graphs, key, n);
      AttributesSitesExactly(path, xs[1..], key, n);
      ReportedInEither(g, GraphsSites(path, xs[0].graphs, key), n);
      ReportedInEither(g + GraphsSites(path, xs[0].graphs, key), AttributesSites(path, xs[1..], key), n);
    }
  }

  lemma {:induction false} GraphsSitesExactly(path: seq<Scope>, gs: seq<Graph>, key: CallKey, n: Node)
    ensures Reported(GraphsSites(path, gs, key), n) <==> n in GraphsNodes(gs) && HasKey(n, key)
    decreases gs, 0
  {
    if gs != [] {
      NodesSitesExactly(path + [GraphScope(gs[0])], gs[0].nodes, key, n);
      GraphsSitesExactly(path, gs[1..], key, n);
      ReportedInEither(NodesSites(path + [GraphScope(gs[0])], gs[0].nodes, key), GraphsSites(path, gs[1..], key), n);
    }
  }

  // The node stands in the body of the function or in one of its default attributes, at some depth.
  predicate StandsIn(n: Node, f: Function) {
    n in AllNodes(f.nodes) + AttributesNodes(f.attributeProtos)
  }

  lemma {:induction false} FunctionSitesExactly(f: Function, key: CallKey, n: Node)
    ensures Reported(ScopeSites([], FunctionScope(f), key), n) <==> HasKey(n, key) && StandsIn(n, f)
  {
    var path := [FunctionScope(f)];
    assert [] + [FunctionScope(f)] == path;
    NodesSitesExactly(path, f.nodes, key, n);
    AttributesSitesExactly(path, f.attributeProtos, key, n);
    ReportedInEither(NodesSites(path, f.nodes, key), AttributesSites(path, f.attributeProtos, key), n);
  }

  lemma {:induction false} FunctionsSitesExactly(fs: seq<Function>, key: CallKey, n: Node)
    ensures Reported(FunctionsSites(fs, key), n) <==> HasKey(n, key) && exists f :: f in fs && StandsIn(n, f)
    decreases |fs|
  {
    if fs != [] {
      var last, front := fs[|fs| - 1], fs[..|fs| - 1];
      FunctionSitesExactly(last, key, n);
      FunctionsSitesExactly(front, key, n);
      ReportedInEither(ScopeSites([], FunctionScope(last), key), FunctionsSites(front, key), n);
      LastStands(fs, n);
    }
  }

  lemma {:induction false} LastStands(fs: seq<Function>, n: Node)
    requires fs != []
    ensures (exists f :: f in fs && StandsIn(n, f)) <==>
      StandsIn(n, fs[|fs| - 1]) || exists f :: f in fs[..|fs| - 1] && StandsIn(n, f)
  {
    var last, front := fs[|fs| - 1], fs[..|fs| - 1];
    assert fs == front + [last];
    assert forall f :: f in fs <==> f == last || f in front;
  }

  // Reported under a key are exactly the nodes with that domain, operator and overload, at every depth of the main
  // graph,
  // of the function bodies and of their default attributes.
  lemma {:induction false} ReportedNodesExactly(m: Model, key: CallKey, n: Node)
    ensures (exists r :: r in ForKey(ModelReports(m), key) && r.node == n) <==>
      && n.domain == key.domain && n.opType == key.opType && n.overload == key.overload
      && (n in AllNodes(m.graph.nodes) ||
          exists f :: f in m.functions && StandsIn(n, f))
  {
    var path := [GraphScope(m.graph)];
    assert [] + [GraphScope(m.graph)] == path;
    EveryModelSiteOnce(m, key);
    NodesSitesExactly(path, m.graph.nodes, key, n);
    FunctionsSitesExactly(m.functions, key, n);
    var main, bodies := ScopeSites([], GraphScope(m.graph), key), FunctionsSites(m.functions, key);
    assert main == NodesSites(path, m.graph.nodes, key);
    ReportedInEither(main, bodies, n);
    var reports := ForKey(ModelReports(m), key);
    assert forall r :: r in reports <==> r in multiset(reports);
  }

  // Requested are the keys of the functions given.
  lemma {:induction false} ReportKeysExactly(functions: seq<Function>, key: CallKey)
    ensures key in ReportKeys(functions) <==>
      exists f :: f in functions && key.domain == f.domain && key.opType == f.name && key.overload == f.overload
  {
  }

  // ----- how many constants are counted -----

  // The constants of the graphs in the attributes of a list of nodes, at every depth.
  function NodesConstants(ns: seq<Node>): nat
    decreases ns, 0
  {
    if ns == [] then 0 else AttributesConstants(ns[0].attributes) + NodesConstants(ns[1..])
  }

  function AttributesConstants(xs: seq<Attribute>): nat
    decreases xs, 0
  {
    if xs == [] then 0
    else
      (if xs[0].g.Some? then GraphConstants(xs[0].g.value) else 0) + GraphsConstants(xs[0].graphs) +
      AttributesConstants(xs[1..])
  }

  function GraphsConstants(gs: seq<Graph>): nat
    decreases gs, 0
  {
    if gs == [] then 0 else GraphConstants(gs[0]) + GraphsConstants(gs[1..])
  }

  function GraphConstants(g: Graph): nat
    decreases g, 1
  {
    |ConstantNames(GraphScope(g))| + NodesConstants(g.nodes)
  }

  lemma {:induction false} ConstantCountsConcat(a: seq<Graph>, b: seq<Graph>)
    ensures ConstantCounts(a + b) == ConstantCounts(a) + ConstantCounts(b)
  {
    if b == [] {
      assert a + b == a;
    } else {
      assert (a + b)[..|a + b| - 1] == a + b[..|b| - 1];
      ConstantCountsConcat(a, b[..|b| - 1]);
    }
  }

  lemma {:induction false} AttributeBodiesConcat(xs: seq<Attribute>, ys: seq<Attribute>)
    ensures AttributeBodies(xs + ys) == AttributeBodies(xs) + AttributeBodies(ys)
  {
    if xs == [] {
      assert xs + ys == ys;
    } else {
      assert (xs + ys)[1..] == xs[1..] + ys;
      AttributeBodiesConcat(xs[1..], ys);
    }
  }

  // The count of a scope, over the tree of messages: its own constants and those of the graphs below it.
  lemma {:induction false} GraphCountExactly(g: Graph)
    ensures ConstantCount(GraphScope(g)) == GraphConstants(g)
    decreases g, 1
  {
    NodesCountExactly(g.nodes);
    assert ScopeAttributes(GraphScope(g)) == NodeAttributes(g.nodes);
  }

  // That of a function also has the graphs of its default attributes.
  lemma {:induction false} FunctionCountExactly(f: Function)
    ensures ConstantCount(FunctionScope(f)) ==
      |ConstantNames(FunctionScope(f))| + NodesConstants(f.nodes) + AttributesConstants(f.attributeProtos)
  {
    NodesCountExactly(f.nodes);
    AttributesCountExactly(f.attributeProtos);
    AttributeBodiesConcat(NodeAttributes(f.nodes), f.attributeProtos);
    ConstantCountsConcat(AttributeBodies(NodeAttributes(f.nodes)), AttributeBodies(f.attributeProtos));
  }

  lemma {:induction false} NodesCountExactly(ns: seq<Node>)
    ensures ConstantCounts(AttributeBodies(NodeAttributes(ns))) == NodesConstants(ns)
    decreases ns, 0
  {
    if ns != [] {
      AttributesCountExactly(ns[0].attributes);
      NodesCountExactly(ns[1..]);
      AttributeBodiesConcat(ns[0].attributes, NodeAttributes(ns[1..]));
      ConstantCountsConcat(AttributeBodies(ns[0].attributes), AttributeBodies(NodeAttributes(ns[1..])));
    }
  }

  lemma {:induction false} AttributesCountExactly(xs: seq<Attribute>)
    ensures ConstantCounts(AttributeBodies(xs)) == AttributesConstants(xs)
    decreases xs, 0
  {
    if xs != [] {
      var a := xs[0];
      if a.g.Some? {
        GraphCountExactly(a.g.value);
        SingleCount(a.g.value);
        ConstantCountsConcat([a.g.value], a.graphs);
      } else {
        assert Bodies(a) == a.graphs;
      }
      GraphsCountExactly(a.graphs);
      AttributesCountExactly(xs[1..]);
      ConstantCountsConcat(Bodies(a), AttributeBodies(xs[1..]));
    }
  }

  lemma {:induction false} SingleCount(g: Graph)
    ensures ConstantCounts([g]) == ConstantCount(GraphScope(g))
  {
    assert [g][..0] == [];
  }

  lemma {:induction false} GraphsCountExactly(gs: seq<Graph>)
    ensures ConstantCounts(gs) == GraphsConstants(gs)
    decreases gs, 0
  {
    if gs != [] {
      GraphCountExactly(gs[0]);
      GraphsCountExactly(gs[1..]);
      SingleCount(gs[0]);
      assert gs == [gs[0]] + gs[1..];
      ConstantCountsConcat([gs[0]], gs[1..]);
    }
  }
}
