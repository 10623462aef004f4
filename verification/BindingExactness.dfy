// When the functions of a model can make the binding traversal report a recursion that is none: exactly when a function
// hands a graph of its caller on to its own nodes, since the graph may then call the function again.

module BindingExactness {
  import opened Basics
  import opened Onnx
  import opened Opsets
  import opened FunctionCycles
  import opened CallGraphs
  import opened Binding
  import opened BindingSafety

  // ----- trees that differ in a graph that was passed -----

  // `b` is like `a`, except that graphs that hold the node `p` alone may stand in place of graphs without nodes.
  ghost predicate SimNodes(a: seq<Node>, b: seq<Node>, p: Node)
    decreases a, 0
  {
    |a| == |b| && (a == [] || (SimNode(a[0], b[0], p) && SimNodes(a[1..], b[1..], p)))
  }

  ghost predicate SimNode(a: Node, b: Node, p: Node)
    decreases a, 1
  {
    a.(attributes := []) == b.(attributes := []) && SimAttributes(a.attributes, b.attributes, p)
  }

  ghost predicate SimAttributes(xs: seq<Attribute>, ys: seq<Attribute>, p: Node)
    decreases xs, 0
  {
    |xs| == |ys| && (xs == [] || (SimAttribute(xs[0], ys[0], p) && SimAttributes(xs[1..], ys[1..], p)))
  }

  ghost predicate SimAttribute(x: Attribute, y: Attribute, p: Node)
    decreases x, 1
  {
    && x.(g := None, graphs := []) == y.(g := None, graphs := [])
    && (x.g.Some? <==> y.g.Some?)
    && (x.g.Some? ==>
         SimNodes(x.g.value.nodes, y.g.value.nodes, p) || (x.g.value.nodes == [] && y.g.value.nodes == [p]))
    && SimGraphs(x.graphs, y.graphs, p)
  }

  ghost predicate SimGraphs(gs: seq<Graph>, hs: seq<Graph>, p: Node)
    decreases gs, 0
  {
    |gs| == |hs| && (gs == [] || (SimNodes(gs[0].nodes, hs[0].nodes, p) && SimGraphs(gs[1..], hs[1..], p)))
  }

  lemma {:induction false} SimNodesReflexive(ns: seq<Node>, p: Node)
    ensures SimNodes(ns, ns, p)
    decreases ns, 0
  {
    if ns != [] {
      SimAttributesReflexive(ns[0].attributes, p);
      SimNodesReflexive(ns[1..], p);
    }
  }

  lemma {:induction false} SimAttributesReflexive(xs: seq<Attribute>, p: Node)
    ensures SimAttributes(xs, xs, p)
    decreases xs, 0
  {
    if xs != [] {
      SimAttributeReflexive(xs[0], p);
      SimAttributesReflexive(xs[1..], p);
    }
  }

  lemma {:induction false} SimAttributeReflexive(x: Attribute, p: Node)
    ensures SimAttribute(x, x, p)
    decreases x, 1
  {
    if x.g.Some? {
      SimNodesReflexive(x.g.value.nodes, p);
    }
    SimGraphsReflexive(x.graphs, p);
  }

  lemma {:induction false} SimGraphsReflexive(gs: seq<Graph>, p: Node)
    ensures SimGraphs(gs, gs, p)
    decreases gs, 0
  {
    if gs != [] {
      SimNodesReflexive(gs[0].nodes, p);
      SimGraphsReflexive(gs[1..], p);
    }
  }

  // ----- binding keeps the likeness -----

  ghost predicate SimMaps(m: AttributeMap, m': AttributeMap, p: Node) {
    m.Keys == m'.Keys && forall key | key in m :: SimAttribute(m[key], m'[key], p)
  }

  lemma {:induction false} BoundNodesAreSim(ns: seq<Node>, m: AttributeMap, m': AttributeMap, p: Node)
    requires SimMaps(m, m', p)
    ensures SimNodes(BindNodes(ns, m), BindNodes(ns, m'), p)
    decreases ns, 0
  {
    if ns != [] {
      BoundAttributesAreSim(ns[0].attributes, m, m', p);
      BoundNodesAreSim(ns[1..], m, m', p);
      assert BindNodes(ns, m)[1..] == BindNodes(ns[1..], m) && BindNodes(ns, m')[1..] == BindNodes(ns[1..], m');
    }
  }

  lemma {:induction false} BoundAttributesAreSim(xs: seq<Attribute>, m: AttributeMap, m': AttributeMap, p: Node)
    requires SimMaps(m, m', p)
    ensures SimAttributes(BindAttributes(xs, m), BindAttributes(xs, m'), p)
    decreases xs, 0
  {
    if xs != [] {
      var a := xs[0];
      BoundAttributesAreSim(xs[1..], m, m', p);
      var rest, rest' := BindAttributes(xs[1..], m), BindAttributes(xs[1..], m');
      if a.refAttrName == "" || a.refAttrName in m {
        var y := if a.refAttrName == "" then BindAttribute(a, m) else m[a.refAttrName].(name := a.name);
        var y' := if a.refAttrName == "" then BindAttribute(a, m') else m'[a.refAttrName].(name := a.name);
        if a.refAttrName == "" {
          BoundAttributeIsSim(a, m, m', p);
        } else {
          RenamedIsSim(m[a.refAttrName], m'[a.refAttrName], a.name, p);
        }
        assert BindAttributes(xs, m) == [y] + rest && BindAttributes(xs, m') == [y'] + rest';
        assert ([y] + rest)[1..] == rest && ([y'] + rest')[1..] == rest';
      } else {
        assert BindAttributes(xs, m) == rest && BindAttributes(xs, m') == rest';
      }
    }
  }

  lemma {:induction false} RenamedIsSim(x: Attribute, y: Attribute, name: string, p: Node)
    requires SimAttribute(x, y, p)
    ensures SimAttribute(x.(name := name), y.(name := name), p)
  {
    assert x.(name := name, g := None, graphs := []) == x.(g := None, graphs := []).(name := name);
  }

  lemma {:induction false} BoundAttributeIsSim(a: Attribute, m: AttributeMap, m': AttributeMap, p: Node)
    requires SimMaps(m, m', p)
    ensures SimAttribute(BindAttribute(a, m), BindAttribute(a, m'), p)
    decreases a, 1
  {
    if a.g.Some? {
      BoundNodesAreSim(a.g.value.nodes, m, m', p);
    }
    BoundGraphsAreSim(a.graphs, m, m', p);
  }

  lemma {:induction false} BoundGraphsAreSim(gs: seq<Graph>, m: AttributeMap, m': AttributeMap, p: Node)
    requires SimMaps(m, m', p)
    ensures SimGraphs(BindGraphs(gs, m), BindGraphs(gs, m'), p)
    decreases gs, 0
  {
    if gs != [] {
      BoundNodesAreSim(gs[0].nodes, m, m', p);
      BoundGraphsAreSim(gs[1..], m, m', p);
      assert BindGraphs(gs, m)[1..] == BindGraphs(gs[1..], m) && BindGraphs(gs, m')[1..] == BindGraphs(gs[1..], m');
    }
  }

  lemma {:induction false} SimAt(xs: seq<Attribute>, ys: seq<Attribute>, p: Node, i: nat)
    requires SimAttributes(xs, ys, p) && i < |xs|
    ensures |ys| == |xs| && SimAttribute(xs[i], ys[i], p)
  {
    if i > 0 {
      SimAt(xs[1..], ys[1..], p, i - 1);
    }
  }

  lemma {:induction false} SimFrom(xs: seq<Attribute>, ys: seq<Attribute>, p: Node)
    requires |xs| == |ys| && forall i | 0 <= i < |xs| :: SimAttribute(xs[i], ys[i], p)
    ensures SimAttributes(xs, ys, p)
  {
    if xs != [] {
      SimFrom(xs[1..], ys[1..], p);
    }
  }

  lemma {:induction false} ByNameIsSim(xs: seq<Attribute>, ys: seq<Attribute>, p: Node)
    requires |xs| == |ys| && forall i | 0 <= i < |xs| :: SimAttribute(xs[i], ys[i], p)
    ensures SimMaps(ByName(xs), ByName(ys), p)
  {
    if xs != [] {
      var n := |xs| - 1;
      ByNameIsSim(xs[..n], ys[..n], p);
      assert SimAttribute(xs[n], ys[n], p);
    }
  }

  lemma {:induction false} CallsAreSim(f: Function, n: Node, n': Node, p: Node)
    requires SimNode(n, n', p)
    ensures SimMaps(CallAttributes(f, n), CallAttributes(f, n'), p)
  {
    var xs, ys := f.attributeProtos + n.attributes, f.attributeProtos + n'.attributes;
    if n.attributes != [] {
      SimAt(n.attributes, n'.attributes, p, 0);
    }
    forall i | 0 <= i < |xs| ensures |ys| == |xs| && SimAttribute(xs[i], ys[i], p) {
      if i < |f.attributeProtos| {
        SimAttributeReflexive(xs[i], p);
      } else {
        SimAt(n.attributes, n'.attributes, p, i - |f.attributeProtos|);
      }
    }
    ByNameIsSim(xs, ys, p);
  }

  // ----- the traversal of the other tree can only fail at the node put in -----

  predicate NoNodes(a: Attribute) {
    (a.g.Some? ==> a.g.value.nodes == []) && forall g | g in a.graphs :: g.nodes == []
  }

  lemma {:induction false} NoNodesInGraphs(gs: seq<Graph>)
    requires forall g | g in gs :: g.nodes == []
    ensures GraphsNodes(gs) == {} && GraphsVisits(gs, false) == {}
  {
    if gs != [] {
      assert gs == [gs[0]] + gs[1..];
      NoNodesInGraphs(gs[1..]);
    }
  }

  lemma {:induction false} NoNodesMeaning(a: Attribute)
    requires NoNodes(a)
    ensures AttributeNodes(a) == {} && BodiesVisits(a, false) == {}
  {
    NoNodesInGraphs(a.graphs);
  }

  lemma {:induction false} NoAttributeNodes(xs: seq<Attribute>)
    requires forall a | a in xs :: NoNodes(a)
    ensures AttributesNodes(xs) == {}
  {
    if xs != [] {
      assert xs == [xs[0]] + xs[1..];
      NoNodesMeaning(xs[0]);
      NoAttributeNodes(xs[1..]);
    }
  }

  // A call of a local function that is no operator under any imports, with attributes that hold no nodes and are valid.
  ghost predicate BareCall(p: Node, c: Context) {
    && CalleeId(p) in c.Keys()
    && (forall version :: c.registry(p.opType, version, SchemaDomain(p.domain)).None?)
    && ReferencesValid(p, p.attributes, BOUND, c)
    && forall a | a in p.attributes :: NoNodes(a)
  }

  lemma {:induction false} BareCallIsLocal(p: Node, imports: Imports, c: Context)
    requires BareCall(p, c)
    ensures c.IsLocalCall(p, imports)
  {
    var version := VersionForDomain(p.domain, imports);
    assert c.registry(p.opType, version, SchemaDomain(p.domain)).None?;
  }

  lemma {:induction false} ActiveCallIsRecursive(p: Node, imports: Imports, active: set<string>, c: Context)
    requires BareCall(p, c) && CalleeId(p) in active
    ensures NodesFinding([p], BOUND, imports, active, c) == Rejected(Recursive(CalleeId(p)))
  {
    BareCallIsLocal(p, imports, c);
    NoAttributeNodes(p.attributes);
    AttributesFindingMeaning(p, p.attributes, BOUND, imports, active, c);
  }

  ghost predicate OnlyRecursive(f: Finding) {
    f.Rejected? ==> f.reason.Recursive?
  }

  lemma {:induction false} SimNodesOnlyRecursive(a: seq<Node>, b: seq<Node>, p: Node, imports: Imports,
                                                 active: set<string>, c: Context)
    requires SimNodes(a, b, p) && BareCall(p, c) && CalleeId(p) in active
    requires NodesFinding(a, BOUND, imports, active, c).Clean?
    ensures OnlyRecursive(NodesFinding(b, BOUND, imports, active, c))
    decreases c.Keys().Keys - active, a, 0
  {
    if a != [] {
      SimNodeOnlyRecursive(a[0], b[0], p, imports, active, c);
      SimNodesOnlyRecursive(a[1..], b[1..], p, imports, active, c);
    }
  }

  lemma {:induction false} SimNodeOnlyRecursive(n: Node, n': Node, p: Node, imports: Imports, active: set<string>,
                                                c: Context)
    requires SimNode(n, n', p) && BareCall(p, c) && CalleeId(p) in active
    requires NodeFinding(n, BOUND, imports, active, c).Clean?
    ensures OnlyRecursive(NodeFinding(n', BOUND, imports, active, c))
    decreases c.Keys().Keys - active, n, 1
  {
    SimAttributesOnlyRecursive(n, n', n.attributes, n'.attributes, p, imports, active, c);
    assert CalleeId(n') == CalleeId(n) && (c.IsLocalCall(n', imports) <==> c.IsLocalCall(n, imports));
    if c.IsLocalCall(n, imports) {
      var f := c.FunctionOf(CalleeId(n));
      CallsAreSim(f, n, n', p);
      BoundNodesAreSim(f.nodes, CallAttributes(f, n), CallAttributes(f, n'), p);
      SimNodesOnlyRecursive(BindNodes(f.nodes, CallAttributes(f, n)), BindNodes(f.nodes, CallAttributes(f, n')), p,
                            ImportsOf(f.opsetImports, true).value, active + {CalleeId(n)}, c);
    }
  }

  lemma {:induction false} SimAttributesOnlyRecursive(n: Node, n': Node, xs: seq<Attribute>, ys: seq<Attribute>,
                                                      p: Node, imports: Imports, active: set<string>, c: Context)
    requires n.(attributes := []) == n'.(attributes := []) && SimAttributes(xs, ys, p)
    requires BareCall(p, c) && CalleeId(p) in active
    requires AttributesFinding(n, xs, BOUND, imports, active, c).Clean?
    ensures OnlyRecursive(AttributesFinding(n', ys, BOUND, imports, active, c))
    decreases c.Keys().Keys - active, xs, 0
  {
    if xs != [] {
      SimBodiesOnlyRecursive(xs[0], ys[0], p, imports, active, c);
      SimAttributesOnlyRecursive(n, n', xs[1..], ys[1..], p, imports, active, c);
    }
  }

  lemma {:induction false} SimBodiesOnlyRecursive(x: Attribute, y: Attribute, p: Node, imports: Imports,
                                                  active: set<string>, c: Context)
    requires SimAttribute(x, y, p) && BareCall(p, c) && CalleeId(p) in active
    requires BodiesFinding(x, BOUND, imports, active, c).Clean?
    ensures OnlyRecursive(BodiesFinding(y, BOUND, imports, active, c))
    decreases c.Keys().Keys - active, x, 1
  {
    if x.g.Some? {
      if SimNodes(x.g.value.nodes, y.g.value.nodes, p) {
        SimNodesOnlyRecursive(x.g.value.nodes, y.g.value.nodes, p, imports, active, c);
      } else {
        ActiveCallIsRecursive(p, imports, active, c);
      }
    }
    SimGraphsOnlyRecursive(x.graphs, y.graphs, p, imports, active, c);
  }

  lemma {:induction false} SimGraphsOnlyRecursive(gs: seq<Graph>, hs: seq<Graph>, p: Node, imports: Imports,
                                                  active: set<string>, c: Context)
    requires SimGraphs(gs, hs, p) && BareCall(p, c) && CalleeId(p) in active
    requires GraphsFinding(gs, BOUND, imports, active, c).Clean?
    ensures OnlyRecursive(GraphsFinding(hs, BOUND, imports, active, c))
    decreases c.Keys().Keys - active, gs, 0
  {
    if gs != [] {
      SimNodesOnlyRecursive(gs[0].nodes, hs[0].nodes, p, imports, active, c);
      SimGraphsOnlyRecursive(gs[1..], hs[1..], p, imports, active, c);
    }
  }

  // ----- a forwarded value ends up inside the bound body -----

  lemma {:induction false} ForwardedIsInside(ns: seq<Node>, m: AttributeMap, n: Node, a: Attribute)
    requires n in Visits(ns, true) && a in n.attributes && a.refAttrName != "" && a.refAttrName in m
    ensures AttributeNodes(m[a.refAttrName]) <= AllNodes(BindNodes(ns, m))
    decreases ns, 0
  {
    var bound := BindNodes(ns, m);
    assert bound[0] == Bound(ns[0], m) && bound[1..] == BindNodes(ns[1..], m);
    if n in Visits(ns[1..], true) {
      ForwardedIsInside(ns[1..], m, n, a);
    } else if n == ns[0] {
      ReferenceIsInside(n.attributes, m, a);
    } else {
      ForwardedInAttributes(ns[0], ns[0].attributes, m, n, a);
    }
  }

  lemma {:induction false} ReferenceIsInside(xs: seq<Attribute>, m: AttributeMap, a: Attribute)
    requires a in xs && a.refAttrName != "" && a.refAttrName in m
    ensures AttributeNodes(m[a.refAttrName]) <= AttributesNodes(BindAttributes(xs, m))
  {
    var bound, rest := BindAttributes(xs, m), BindAttributes(xs[1..], m);
    if a == xs[0] {
      var v := m[a.refAttrName];
      assert bound == [v.(name := a.name)] + rest && bound[1..] == rest;
      assert AttributeNodes(v.(name := a.name)) == AttributeNodes(v);
    } else {
      ReferenceIsInside(xs[1..], m, a);
      TailNodes(xs, m);
    }
  }

  lemma {:induction false} TailNodes(xs: seq<Attribute>, m: AttributeMap)
    requires xs != []
    ensures AttributesNodes(BindAttributes(xs[1..], m)) <= AttributesNodes(BindAttributes(xs, m))
    ensures xs[0].refAttrName == "" ==>
      AttributeNodes(BindAttribute(xs[0], m)) <= AttributesNodes(BindAttributes(xs, m))
  {
    var bound, rest := BindAttributes(xs, m), BindAttributes(xs[1..], m);
    assert bound == rest || bound[1..] == rest;
  }

  lemma {:induction false} ForwardedInAttributes(x: Node, xs: seq<Attribute>, m: AttributeMap, n: Node, a: Attribute)
    requires n in AttributesVisits(x, xs, true) && a in n.attributes && a.refAttrName != "" && a.refAttrName in m
    ensures AttributeNodes(m[a.refAttrName]) <= AttributesNodes(BindAttributes(xs, m))
    decreases xs, 0
  {
    TailNodes(xs, m);
    if n in AttributesVisits(x, xs[1..], true) {
      ForwardedInAttributes(x, xs[1..], m, n, a);
    } else {
      ForwardedInBodies(xs[0], m, n, a);
    }
  }

  lemma {:induction false} ForwardedInBodies(x: Attribute, m: AttributeMap, n: Node, a: Attribute)
    requires n in BodiesVisits(x, true) && a in n.attributes && a.refAttrName != "" && a.refAttrName in m
    ensures AttributeNodes(m[a.refAttrName]) <= AttributeNodes(BindAttribute(x, m))
    decreases x, 1
  {
    if x.g.Some? && n in Visits(x.g.value.nodes, true) {
      ForwardedIsInside(x.g.value.nodes, m, n, a);
    } else {
      ForwardedInGraphs(x.graphs, m, n, a);
    }
  }

  lemma {:induction false} ForwardedInGraphs(gs: seq<Graph>, m: AttributeMap, n: Node, a: Attribute)
    requires n in GraphsVisits(gs, true) && a in n.attributes && a.refAttrName != "" && a.refAttrName in m
    ensures AttributeNodes(m[a.refAttrName]) <= GraphsNodes(BindGraphs(gs, m))
    decreases gs, 0
  {
    assert BindGraphs(gs, m)[1..] == BindGraphs(gs[1..], m);
    if n in Visits(gs[0].nodes, true) {
      ForwardedIsInside(gs[0].nodes, m, n, a);
    } else {
      ForwardedInGraphs(gs[1..], m, n, a);
    }
  }

  // ----- calls that pass themselves -----

  // A call that binds, while its attribute `j` holds a graph without nodes and no later attribute has its name.
  ghost predicate PassesEmptyGraph(n: Node, j: nat, imports: Imports, c: Context) {
    && BareCall(n, c) && AllWellTyped(n.attributes)
    && j < |n.attributes| && n.attributes[j].g.Some?
    && (forall i | j < i < |n.attributes| :: n.attributes[i].name != n.attributes[j].name)
    && NodesFinding([n], BOUND, imports, {}, c).Clean?
  }

  function WithBody(a: Attribute, nodes: seq<Node>): Attribute
    requires a.g.Some?
  {
    a.(g := Some(a.g.value.(nodes := nodes)))
  }

  // The same call with a graph that makes the original call.
  function SelfCall(n: Node, j: nat): Node
    requires j < |n.attributes| && n.attributes[j].g.Some?
  {
    n.(attributes := n.attributes[j := WithBody(n.attributes[j], [n])])
  }

  lemma {:induction false} SelfCallIsSim(n: Node, j: nat)
    requires j < |n.attributes| && n.attributes[j].g.Some? && NoNodes(n.attributes[j])
    ensures SimNode(n, SelfCall(n, j), n)
  {
    var xs, ys := n.attributes, SelfCall(n, j).attributes;
    forall i | 0 <= i < |xs| ensures SimAttribute(xs[i], ys[i], n) {
      if i == j {
        SimGraphsReflexive(xs[i].graphs, n);
      } else {
        SimAttributeReflexive(xs[i], n);
      }
    }
    SimFrom(xs, ys, n);
  }

  lemma {:induction false} SingleNode(n: Node, a: Attribute)
    requires a.g.Some?
    ensures AllNodes([n]) == {n} + AttributesNodes(n.attributes)
    ensures Visits([n], false) == {n} + AttributesVisits(n, n.attributes, false)
    ensures AttributeNodes(WithBody(a, [n])) == AllNodes([n]) + GraphsNodes(a.graphs)
    ensures BodiesVisits(WithBody(a, [n]), false) == Visits([n], false) + GraphsVisits(a.graphs, false)
  {
    assert [n][1..] == [];
  }

  // The only node inside is the original call.
  lemma {:induction false} SelfCallNodes(n: Node, xs: seq<Attribute>, j: nat)
    requires j < |xs| && xs[j].g.Some? && forall a | a in xs :: NoNodes(a)
    ensures AttributesNodes(xs[j := WithBody(xs[j], [n])]) == {n} + AttributesNodes(n.attributes)
    decreases xs
  {
    var ys := xs[j := WithBody(xs[j], [n])];
    assert forall a | a in xs[1..] :: a in xs;
    if j == 0 {
      assert ys[1..] == xs[1..];
      SingleNode(n, xs[0]);
      NoAttributeNodes(xs[1..]);
      assert NoNodes(xs[0]);
      NoNodesInGraphs(xs[0].graphs);
    } else {
      assert ys[1..] == xs[1..][j - 1 := WithBody(xs[j], [n])];
      SelfCallNodes(n, xs[1..], j - 1);
      NoNodesMeaning(xs[0]);
    }
  }

  // Its attributes are clean wherever the original call is.
  lemma {:induction false} SelfCallAttributes(n: Node, j: nat, mode: Mode, imports: Imports, active: set<string>,
                                              c: Context)
    requires BareCall(n, c) && j < |n.attributes| && n.attributes[j].g.Some? && !mode.unboundFunction
    requires NodesFinding([n], mode, imports, active, c).Clean?
    ensures AttributesFinding(SelfCall(n, j), SelfCall(n, j).attributes, mode, imports, active, c).Clean?
  {
    var s := SelfCall(n, j);
    SelfCallNodes(n, n.attributes, j);
    NoAttributeNodes(n.attributes);
    AttributesFindingMeaning(s, s.attributes, mode, imports, active, c);
    NodesFindingMeaning([n], mode, imports, active, c);
    forall y | y in s.attributes ensures ReferenceValid(s, y, mode, c) {
      if y == WithBody(n.attributes[j], [n]) {
        assert ReferenceValid(n, n.attributes[j], BOUND, c);
      } else {
        assert y in n.attributes && ReferenceValid(n, y, BOUND, c);
      }
    }
  }

  lemma {:induction false} LastAttribute(defaults: seq<Attribute>, xs: seq<Attribute>, j: nat)
    requires j < |xs| && forall i | j < i < |xs| :: xs[i].name != xs[j].name
    ensures xs[j].name in ByName(defaults + xs) && ByName(defaults + xs)[xs[j].name] == xs[j]
    decreases |xs|
  {
    var n := |xs| - 1;
    assert (defaults + xs)[..|defaults + xs| - 1] == defaults + xs[..n];
    if j < n {
      LastAttribute(defaults, xs[..n], j);
    }
  }

  // The bound body of the call that passes itself can only fail where the original call comes back.
  lemma {:induction false} SelfCallBody(n: Node, j: nat, imports: Imports, c: Context)
    requires PassesEmptyGraph(n, j, imports, c)
    ensures var f, m, m' := c.FunctionOf(CalleeId(n)), CallAttributes(c.FunctionOf(CalleeId(n)), n),
                            CallAttributes(c.FunctionOf(CalleeId(n)), SelfCall(n, j));
      && m'.Keys == m.Keys && (forall a | a in f.attributes :: a in m) && InRange(f)
      && OnlyRecursive(NodesFinding(BindNodes(f.nodes, m'), BOUND, ImportsOf(f.opsetImports, true).value,
                                    {CalleeId(n)}, c))
  {
    var s, f, id := SelfCall(n, j), c.FunctionOf(CalleeId(n)), CalleeId(n);
    var m, m' := CallAttributes(f, n), CallAttributes(f, s);
    NodesFindingMeaning([n], BOUND, imports, {}, c);
    assert n in AllNodes([n]);
    BareCallIsLocal(n, imports, c);
    assert CallBinds(n, {}, c) && {} + {id} == {id};
    SelfCallIsSim(n, j);
    CallsAreSim(f, n, s, n);
    BoundNodesAreSim(f.nodes, m, m', n);
    SimNodesOnlyRecursive(BindNodes(f.nodes, m), BindNodes(f.nodes, m'), n, ImportsOf(f.opsetImports, true).value,
                          {id}, c);
  }

  // If the function forwards the graph, the call that passes itself is reported as recursive.
  lemma {:induction false} SelfCallIsReported(n: Node, j: nat, imports: Imports, c: Context)
    requires PassesEmptyGraph(n, j, imports, c) && n.attributes[j].name in Forwarded(c.FunctionOf(CalleeId(n)))
    ensures var v := NodesFinding([SelfCall(n, j)], BOUND, imports, {}, c); v.Rejected? && v.reason.Recursive?
  {
    var s, id := SelfCall(n, j), CalleeId(n);
    assert [s][1..] == [];
    SelfCallAttributes(n, j, BOUND, imports, {}, c);
    BareCallIsLocal(n, imports, c);
    assert CalleeId(s) == id && c.IsLocalCall(s, imports) && {} + {id} == {id};
    SelfCallBody(n, j, imports, c);
    SelfCallComesBack(n, j, c);
  }

  // The bound body of such a call holds the original call, which finds its function active.
  lemma {:induction false} SelfCallComesBack(n: Node, j: nat, c: Context)
    requires BareCall(n, c) && j < |n.attributes| && n.attributes[j].g.Some?
    requires forall i | j < i < |n.attributes| :: n.attributes[i].name != n.attributes[j].name
    requires n.attributes[j].name in Forwarded(c.FunctionOf(CalleeId(n)))
    ensures var f := c.FunctionOf(CalleeId(n));
      InRange(f) ==>
        NodesFinding(BindNodes(f.nodes, CallAttributes(f, SelfCall(n, j))), BOUND,
                     ImportsOf(f.opsetImports, true).value, {CalleeId(n)}, c).Rejected?
  {
    var s, f, r := SelfCall(n, j), c.FunctionOf(CalleeId(n)), n.attributes[j].name;
    var m := CallAttributes(f, s);
    LastAttribute(f.attributeProtos, s.attributes, j);
    var x, a :| x in Visits(f.nodes, true) && a in x.attributes && a.refAttrName == r && r != "" &&
      !IsParameterRef(x, a);
    ForwardedIsInside(f.nodes, m, x, a);
    assert AllNodes([n]) <= AttributeNodes(m[r]) && n in AllNodes([n]);
    if InRange(f) {
      BareCallIsLocal(n, ImportsOf(f.opsetImports, true).value, c);
      NodesFindingMeaning(BindNodes(f.nodes, m), BOUND, ImportsOf(f.opsetImports, true).value, {CalleeId(n)}, c);
      assert !NodeFine(n, BOUND, ImportsOf(f.opsetImports, true).value, {CalleeId(n)}, c);
    }
  }

  lemma {:induction false} SelfCallVisits(n: Node, j: nat)
    requires j < |n.attributes| && n.attributes[j].g.Some? && forall a | a in n.attributes :: NoNodes(a)
    ensures Visits([SelfCall(n, j)], false) <= {SelfCall(n, j), n}
  {
    var s := SelfCall(n, j);
    assert [s][1..] == [];
    PartVisits(n, s, n.attributes, j);
  }

  lemma {:induction false} PartVisits(n: Node, s: Node, xs: seq<Attribute>, j: nat)
    requires j < |xs| && xs[j].g.Some?
    requires (forall a | a in xs :: NoNodes(a)) && forall a | a in n.attributes :: NoNodes(a)
    ensures AttributesVisits(s, xs[j := WithBody(xs[j], [n])], false) <= {n}
    decreases xs
  {
    var ys := xs[j := WithBody(xs[j], [n])];
    assert forall a | a in xs[1..] :: a in xs;
    if j == 0 {
      assert ys[1..] == xs[1..];
      SingleNode(n, xs[0]);
      NoAttributeVisits(s, xs[1..]);
      NoAttributeVisits(n, n.attributes);
      assert NoNodes(xs[0]);
      NoNodesInGraphs(xs[0].graphs);
    } else {
      assert ys[1..] == xs[1..][j - 1 := WithBody(xs[j], [n])];
      PartVisits(n, s, xs[1..], j - 1);
      NoNodesMeaning(xs[0]);
    }
  }

  lemma {:induction false} NoAttributeVisits(n: Node, xs: seq<Attribute>)
    requires forall a | a in xs :: NoNodes(a)
    ensures AttributesVisits(n, xs, false) == {}
  {
    if xs != [] {
      assert xs == [xs[0]] + xs[1..];
      NoNodesMeaning(xs[0]);
      NoAttributeVisits(n, xs[1..]);
    }
  }

  lemma {:induction false} SelfCallHarmless(n: Node, j: nat, imports: Imports, c: Context)
    requires PassesEmptyGraph(n, j, imports, c) && n.attributes[j].name !in Forwarded(c.FunctionOf(CalleeId(n)))
    ensures AllHarmless(Visits([SelfCall(n, j)], false), imports, c)
  {
    var s := SelfCall(n, j);
    SelfCallVisits(n, j);
    forall a | a in n.attributes ensures Still(a, c.Keys()) {
      NoNodesMeaning(a);
    }
    assert Harmless(n, imports, c);
    assert AllWellTyped(s.attributes) by {
      assert WellTyped(n.attributes[j]);
      forall a | a in s.attributes ensures WellTyped(a) {
        assert a in n.attributes || a == WithBody(n.attributes[j], [n]);
      }
    }
    assert CalleeId(s) == CalleeId(n);
    forall a | a in s.attributes && a.name in Forwarded(c.FunctionOf(CalleeId(n))) ensures Still(a, c.Keys()) {
      var i :| 0 <= i < |s.attributes| && s.attributes[i] == a;
      assert i != j;
      assert a == n.attributes[i];
    }
  }

  // The exact condition for one call: where calls are harmless otherwise, the call that passes itself under a name is
  // reported as recursive exactly when the function forwards that name.
  lemma {:induction false} SelfCallReportedExactly(n: Node, j: nat, imports: Imports, c: Context, order: seq<Func>)
    requires Ranked(c, order) && FunctionsHarmless(c) && PassesEmptyGraph(n, j, imports, c)
    ensures NotRecursive(NodesFinding([SelfCall(n, j)], BOUND, imports, {}, c)) <==>
      n.attributes[j].name !in Forwarded(c.FunctionOf(CalleeId(n)))
  {
    if n.attributes[j].name in Forwarded(c.FunctionOf(CalleeId(n))) {
      SelfCallIsReported(n, j, imports, c);
    } else {
      SelfCallHarmless(n, j, imports, c);
      var graph := Graph("", [], [], [], [], [], [], [SelfCall(n, j)]);
      HarmlessModelsNeverRecursive(graph, imports, c, order);
    }
  }

  // ----- all main graphs -----

  // The function takes a graph without nodes under the name, in some call.
  ghost predicate TakesEmptyGraph(f: Function, name: string, c: Context) {
    exists n, j: nat, imports ::
      PassesEmptyGraph(n, j, imports, c) && c.FunctionOf(CalleeId(n)) == f && n.attributes[j].name == name
  }

  ghost predicate SafeForAllGraphs(c: Context) {
    forall graph: Graph, imports | NodesWellTyped(Visits(graph.nodes, false)) ::
      NotRecursive(ModelFinding(graph, imports, c))
  }

  // Where the first two passes are clean and some function refers to an attribute, the third pass decides.
  lemma {:induction false} ThirdPassDecides(graph: Graph, imports: Imports, c: Context)
    requires AllValid(c.functions, c) && SomeFunctionRefers(c.functions)
    requires ReferencesAllValid(graph.nodes, Mode(false, false), c)
    ensures FailureOf(ModelFinding(graph, imports, c)) == FailureOf(NodesFinding(graph.nodes, BOUND, imports, {}, c))
  {
    var unbound := Mode(false, false);
    FunctionsFindingMeaning(c.functions, c);
    NodesFindingMeaning(graph.nodes, unbound, imports, {}, c);
    assert AllFine(AllNodes(graph.nodes), unbound, imports, {}, c);
  }

  lemma {:induction false} SelfCallReferences(graph: Graph, n: Node, j: nat, imports: Imports, c: Context)
    requires PassesEmptyGraph(n, j, imports, c) && graph.nodes == [SelfCall(n, j)]
    ensures ReferencesAllValid(graph.nodes, Mode(false, false), c)
    ensures NodesWellTyped(Visits(graph.nodes, false))
  {
    var s := SelfCall(n, j);
    assert [s][1..] == [];
    NoAttributeNodes(n.attributes);
    SelfCallNodes(n, n.attributes, j);
    assert AllNodes(graph.nodes) == {s, n};
    SelfCallVisits(n, j);
    forall x, a | (x == s || x == n) && a in x.attributes
      ensures ReferenceValid(x, a, Mode(false, false), c) && WellTyped(a)
    {
      assert ReferenceValid(n, n.attributes[j], BOUND, c) && WellTyped(n.attributes[j]);
      if a != WithBody(n.attributes[j], [n]) {
        assert a in n.attributes && ReferenceValid(n, a, BOUND, c);
      }
    }
  }

  lemma {:induction false} SelfCallModelIsReported(graph: Graph, n: Node, j: nat, imports: Imports, c: Context)
    requires PassesEmptyGraph(n, j, imports, c) && n.attributes[j].name in Forwarded(c.FunctionOf(CalleeId(n)))
    requires AllValid(c.functions, c) && SomeFunctionRefers(c.functions) && graph.nodes == [SelfCall(n, j)]
    ensures NodesWellTyped(Visits(graph.nodes, false))
    ensures !NotRecursive(ModelFinding(graph, imports, c))
  {
    SelfCallIsReported(n, j, imports, c);
    SelfCallReferences(graph, n, j, imports, c);
    ThirdPassDecides(graph, imports, c);
  }

  lemma {:induction false} ForwardingIsUnsafe(c: Context, f: Function, r: string)
    requires AllValid(c.functions, c) && SomeFunctionRefers(c.functions)
    requires r in Forwarded(f) && TakesEmptyGraph(f, r, c)
    ensures !SafeForAllGraphs(c)
  {
    var n, j: nat, imports :|
      PassesEmptyGraph(n, j, imports, c) && c.FunctionOf(CalleeId(n)) == f && n.attributes[j].name == r;
    var graph := Graph("", [], [], [], [], [], [], [SelfCall(n, j)]);
    SelfCallModelIsReported(graph, n, j, imports, c);
  }

  // The exact condition for all main graphs. Where references are bound at all and every forwarded attribute can be
  // passed an empty graph, no main graph is reported as recursive exactly when no function forwards an attribute.
  lemma {:induction false} SafeForAllGraphsExactly(c: Context, order: seq<Func>)
    requires Ranked(c, order) && FunctionsWellTyped(c)
    requires AllValid(c.functions, c) && SomeFunctionRefers(c.functions)
    requires forall f, r | f in c.functions && r in Forwarded(f) :: TakesEmptyGraph(f, r, c)
    ensures SafeForAllGraphs(c) <==> NothingForwarded(c)
  {
    if NothingForwarded(c) {
      forall graph: Graph, imports | NodesWellTyped(Visits(graph.nodes, false))
        ensures NotRecursive(ModelFinding(graph, imports, c))
      {
        NothingForwardedIsSafe(graph, imports, c, order);
      }
    } else {
      var f :| f in c.functions && Forwarded(f) != {};
      var r :| r in Forwarded(f);
      ForwardingIsUnsafe(c, f, r);
    }
  }
}
