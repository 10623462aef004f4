// When a model that passed the cycle check cannot reach the failure "Recursive model-local function" of the binding
// traversal: it depends on the graphs that calls pass on, and on what the functions do with them.

module BindingSafety {
  import opened Basics
  import opened Onnx
  import opened Opsets
  import opened FunctionCycles
  import opened CallGraphs
  import opened Binding

  const BOUND := Mode(true, false)

  // ----- the nodes that the traversal with binding goes through -----

  // The nodes at every depth, parameter references aside, which hold no graph or are rejected at sight. In a template,
  // which is still to be bound, attributes that refer to others are left out.
  function Visits(ns: seq<Node>, template: bool): set<Node>
    decreases ns, 0
  {
    if ns == [] then {}
    else {ns[0]} + AttributesVisits(ns[0], ns[0].attributes, template) + Visits(ns[1..], template)
  }

  predicate PassedOver(n: Node, a: Attribute, template: bool) {
    IsParameterRef(n, a) || (template && a.refAttrName != "")
  }

  function AttributesVisits(n: Node, xs: seq<Attribute>, template: bool): set<Node>
    decreases xs, 0
  {
    if xs == [] then {}
    else
      (if PassedOver(n, xs[0], template) then {} else BodiesVisits(xs[0], template)) +
      AttributesVisits(n, xs[1..], template)
  }

  function BodiesVisits(a: Attribute, template: bool): set<Node>
    decreases a, 1
  {
    (if a.g.Some? then Visits(a.g.value.nodes, template) else {}) + GraphsVisits(a.graphs, template)
  }

  function GraphsVisits(gs: seq<Graph>, template: bool): set<Node>
    decreases gs, 0
  {
    if gs == [] then {} else Visits(gs[0].nodes, template) + GraphsVisits(gs[1..], template)
  }

  // Everything visited below a node, and every function it calls, is counted for the whole.
  ghost predicate Inside(n: Node, nodes: set<Node>, callees: set<Func>, site: Site, template: bool) {
    && Calls(n, site) <= callees
    && forall a | a in n.attributes && !PassedOver(n, a, template) :: BodiesVisits(a, template) <= nodes
  }

  lemma {:induction false} VisitsInside(ns: seq<Node>, site: Site, template: bool)
    ensures forall n | n in Visits(ns, template) ::
      Inside(n, Visits(ns, template), NodesCallees(ns, site), site, template)
    decreases ns, 0
  {
    if ns != [] {
      AttributesVisitsInside(ns[0], ns[0].attributes, site, template);
      VisitsInside(ns[1..], site, template);
    }
  }

  lemma {:induction false} AttributesVisitsInside(n: Node, xs: seq<Attribute>, site: Site, template: bool)
    ensures forall x | x in AttributesVisits(n, xs, template) ::
      Inside(x, AttributesVisits(n, xs, template), AttributesCallees(xs, site), site, template)
    ensures forall a | a in xs && !PassedOver(n, a, template) ::
      BodiesVisits(a, template) <= AttributesVisits(n, xs, template)
    decreases xs, 0
  {
    if xs != [] {
      BodiesVisitsInside(xs[0], site, template);
      AttributesVisitsInside(n, xs[1..], site, template);
      assert xs == [xs[0]] + xs[1..];
    }
  }

  lemma {:induction false} BodiesVisitsInside(a: Attribute, site: Site, template: bool)
    ensures forall x | x in BodiesVisits(a, template) ::
      Inside(x, BodiesVisits(a, template), AttributeCallees(a, site), site, template)
    decreases a, 1
  {
    if a.g.Some? {
      VisitsInside(a.g.value.nodes, site, template);
    }
    GraphsVisitsInside(a.graphs, site, template);
  }

  lemma {:induction false} GraphsVisitsInside(gs: seq<Graph>, site: Site, template: bool)
    ensures forall x | x in GraphsVisits(gs, template) ::
      Inside(x, GraphsVisits(gs, template), GraphsCallees(gs, site), site, template)
    decreases gs, 0
  {
    if gs != [] {
      VisitsInside(gs[0].nodes, site, template);
      GraphsVisitsInside(gs[1..], site, template);
    }
  }

  // ----- what binding puts in their place -----

  function Bound(n: Node, m: AttributeMap): Node {
    n.(attributes := BindAttributes(n.attributes, m))
  }

  // The attribute is replaced by a value whose nodes are all in `p`.
  ghost predicate ValueInto(n: Node, a: Attribute, m: AttributeMap, p: iset<Node>) {
    a.refAttrName != "" && a.refAttrName in m && !IsParameterRef(n, a) ==>
      forall x | x in BodiesVisits(m[a.refAttrName], false) :: x in p
  }

  ghost predicate BindsInto(n: Node, m: AttributeMap, p: iset<Node>) {
    Bound(n, m) in p && forall a | a in n.attributes :: ValueInto(n, a, m, p)
  }

  ghost predicate AllIn(nodes: set<Node>, p: iset<Node>) {
    forall x | x in nodes :: x in p
  }

  // What holds of every bound node of a template and of every node of the values put in holds of the bound template.
  lemma {:induction false} BoundVisits(ns: seq<Node>, m: AttributeMap, p: iset<Node>)
    requires forall n | n in Visits(ns, true) :: BindsInto(n, m, p)
    ensures AllIn(Visits(BindNodes(ns, m), false), p)
    decreases ns, 0
  {
    if ns != [] {
      assert BindsInto(ns[0], m, p);
      BoundAttributesVisits(ns[0], ns[0].attributes, m, p);
      BoundVisits(ns[1..], m, p);
      assert BindNodes(ns, m)[0] == Bound(ns[0], m) && BindNodes(ns, m)[1..] == BindNodes(ns[1..], m);
    }
  }

  lemma {:induction false} BoundAttributesVisits(n: Node, xs: seq<Attribute>, m: AttributeMap, p: iset<Node>)
    requires forall x | x in AttributesVisits(n, xs, true) :: BindsInto(x, m, p)
    requires forall a | a in xs :: ValueInto(n, a, m, p)
    ensures AllIn(AttributesVisits(Bound(n, m), BindAttributes(xs, m), false), p)
    decreases xs, 0
  {
    if xs != [] {
      var a, bound := xs[0], BindAttributes(xs, m);
      BoundAttributesVisits(n, xs[1..], m, p);
      if a.refAttrName == "" {
        assert bound[0] == BindAttribute(a, m) && bound[1..] == BindAttributes(xs[1..], m);
        if !IsParameterRef(n, a) {
          BoundBodiesVisits(a, m, p);
        }
      } else if a.refAttrName in m {
        var v := m[a.refAttrName];
        assert bound[0] == v.(name := a.name) && bound[1..] == BindAttributes(xs[1..], m);
        assert ValueInto(n, a, m, p);
        assert BodiesVisits(v.(name := a.name), false) == BodiesVisits(v, false);
      } else {
        assert bound == BindAttributes(xs[1..], m);
      }
    }
  }

  lemma {:induction false} BoundBodiesVisits(a: Attribute, m: AttributeMap, p: iset<Node>)
    requires forall x | x in BodiesVisits(a, true) :: BindsInto(x, m, p)
    ensures AllIn(BodiesVisits(BindAttribute(a, m), false), p)
    decreases a, 1
  {
    if a.g.Some? {
      BoundVisits(a.g.value.nodes, m, p);
    }
    BoundGraphsVisits(a.graphs, m, p);
  }

  lemma {:induction false} BoundGraphsVisits(gs: seq<Graph>, m: AttributeMap, p: iset<Node>)
    requires forall x | x in GraphsVisits(gs, true) :: BindsInto(x, m, p)
    ensures AllIn(GraphsVisits(BindGraphs(gs, m), false), p)
    decreases gs, 0
  {
    if gs != [] {
      BoundVisits(gs[0].nodes, m, p);
      BoundGraphsVisits(gs[1..], m, p);
      assert BindGraphs(gs, m)[1..] == BindGraphs(gs[1..], m);
    }
  }

  // Each attribute of a bound node is a bound attribute of it, or a value under the name of a reference.
  ghost predicate ComesFrom(y: Attribute, a: Attribute, m: AttributeMap) {
    if a.refAttrName == "" then y == BindAttribute(a, m)
    else a.refAttrName in m && y == m[a.refAttrName].(name := a.name)
  }

  lemma {:induction false} BoundAttributesComeFrom(xs: seq<Attribute>, m: AttributeMap)
    ensures forall y | y in BindAttributes(xs, m) :: exists a :: a in xs && ComesFrom(y, a, m)
  {
    if xs != [] {
      BoundAttributesComeFrom(xs[1..], m);
      assert xs == [xs[0]] + xs[1..];
      forall y | y in BindAttributes(xs, m) ensures exists a :: a in xs && ComesFrom(y, a, m) {
        if y in BindAttributes(xs[1..], m) {
          var a :| a in xs[1..] && ComesFrom(y, a, m);
          assert a in xs;
        } else {
          assert xs[0] in xs && ComesFrom(y, xs[0], m);
        }
      }
    }
  }

  lemma {:induction false} ByNameMeaning(xs: seq<Attribute>)
    ensures forall key | key in ByName(xs) :: ByName(xs)[key] in xs && ByName(xs)[key].name == key
  {
    if xs != [] {
      ByNameMeaning(xs[..|xs| - 1]);
    }
  }

  // ----- harmless calls -----

  // A string attribute holds no graph.
  predicate WellTyped(a: Attribute) {
    a.isString ==> a.g.None? && a.graphs == []
  }

  predicate AllWellTyped(xs: seq<Attribute>) {
    forall a | a in xs :: WellTyped(a)
  }

  // The attributes of the caller that a function body hands on to its own nodes, other than as parameter references.
  function Forwarded(f: Function): set<string> {
    set n, a | n in Visits(f.nodes, true) && a in n.attributes && a.refAttrName != "" && !IsParameterRef(n, a) ::
      a.refAttrName
  }

  predicate StillNode(x: Node, keys: map<string, Func>) {
    CalleeId(x) !in keys && AllWellTyped(x.attributes)
  }

  // No node in the graphs of the attribute calls a local function, whatever the imports.
  ghost predicate Still(a: Attribute, keys: map<string, Func>) {
    forall x | x in BodiesVisits(a, false) :: StillNode(x, keys)
  }

  // Where a graph is passed under a name that the function forwards, the graph calls no local function.
  ghost predicate ArgumentsStill(n: Node, f: Function, keys: map<string, Func>) {
    forall a | a in n.attributes && !IsParameterRef(n, a) && a.name in Forwarded(f) :: Still(a, keys)
  }

  ghost predicate Harmless(n: Node, imports: Imports, c: Context) {
    AllWellTyped(n.attributes) && (c.IsLocalCall(n, imports) ==> ArgumentsStill(n, c.FunctionOf(CalleeId(n)), c.Keys()))
  }

  ghost predicate AllHarmless(nodes: set<Node>, imports: Imports, c: Context) {
    forall n | n in nodes :: Harmless(n, imports, c)
  }

  // The same for nodes that are still to be bound: references must not name a default that calls a local function.
  ghost predicate DefaultsStill(a: Attribute, defaults: seq<Attribute>, keys: map<string, Func>) {
    forall d | d in defaults && d.name == a.refAttrName :: Still(d, keys)
  }

  ghost predicate StillTemplateNode(x: Node, defaults: seq<Attribute>, keys: map<string, Func>) {
    && CalleeId(x) !in keys
    && forall b | b in x.attributes ::
         if b.refAttrName == "" then WellTyped(b) else IsParameterRef(x, b) || DefaultsStill(b, defaults, keys)
  }

  ghost predicate ArgumentStill(a: Attribute, defaults: seq<Attribute>, keys: map<string, Func>) {
    if a.refAttrName != "" then DefaultsStill(a, defaults, keys)
    else forall x | x in BodiesVisits(a, true) :: StillTemplateNode(x, defaults, keys)
  }

  ghost predicate HarmlessTemplate(n: Node, imports: Imports, defaults: seq<Attribute>, c: Context) {
    && (forall a | a in n.attributes && a.refAttrName == "" :: WellTyped(a))
    && (c.IsLocalCall(n, imports) ==>
         forall a | a in n.attributes && !IsParameterRef(n, a) && a.name in Forwarded(c.FunctionOf(CalleeId(n))) ::
           ArgumentStill(a, defaults, c.Keys()))
  }

  ghost predicate DefaultHarmless(d: Attribute, imports: Imports, c: Context) {
    WellTyped(d) && AllHarmless(BodiesVisits(d, false), imports, c)
  }

  ghost predicate FunctionHarmless(f: Function, imports: Imports, c: Context) {
    && (forall n | n in Visits(f.nodes, true) :: HarmlessTemplate(n, imports, f.attributeProtos, c))
    && (forall d | d in f.attributeProtos :: DefaultHarmless(d, imports, c))
  }

  // The condition on all functions.
  ghost predicate FunctionsHarmless(c: Context)
    requires VersionsInRange(c.functions)
  {
    forall k: nat | k < |c.functions| ::
      FunctionHarmless(c.functions[k], ImportsOf(c.functions[k].opsetImports, true).value, c)
  }

  // ----- ranks -----

  // What the cycle check leaves behind: an order of all functions that puts callees first.
  ghost predicate Ranked(c: Context, order: seq<Func>) {
    && DistinctIds(c.functions) && VersionsInRange(c.functions)
    && CalleesFirst(CallGraphOf(c.functions, c.registry), order)
    && (forall k: nat | k < |c.functions| :: k in order)
  }

  // A call by `n` goes below rank `r`.
  ghost predicate CallsBelow(n: Node, imports: Imports, c: Context, order: seq<Func>, r: nat) {
    c.IsLocalCall(n, imports) ==> Rank(order, c.Keys()[CalleeId(n)]) < r
  }

  // The nodes that the traversal may go through while every active function ranks at `r` or above.
  ghost function Safe(imports: Imports, c: Context, order: seq<Func>, r: nat): iset<Node> {
    iset n | Harmless(n, imports, c) && CallsBelow(n, imports, c, order, r)
  }

  ghost predicate ActiveAbove(c: Context, order: seq<Func>, active: set<string>, r: nat) {
    forall id | id in active :: id in c.Keys() && Rank(order, c.Keys()[id]) >= r
  }

  ghost predicate NotRecursive(f: Finding) {
    f.Rejected? ==> !f.reason.Recursive?
  }

  // ----- a bound body is safe below the rank of its function -----

  // What a call may pass to function `f`.
  ghost predicate Passes(n: Node, f: Function, keys: map<string, Func>) {
    AllWellTyped(n.attributes) && forall a | a in n.attributes && a.name in Forwarded(f) :: Still(a, keys)
  }

  // A value of the map that a call makes: a default, or an argument that is still if the function forwards it.
  ghost predicate Value(key: string, v: Attribute, f: Function, keys: map<string, Func>) {
    && WellTyped(v)
    && ((v in f.attributeProtos && v.name == key) || (key in Forwarded(f) ==> Still(v, keys)))
  }

  lemma {:induction false} CallValues(n: Node, f: Function, keys: map<string, Func>)
    requires Passes(n, f, keys) && AllWellTyped(f.attributeProtos)
    ensures forall key | key in CallAttributes(f, n) :: Value(key, CallAttributes(f, n)[key], f, keys)
  {
    var xs := f.attributeProtos + n.attributes;
    ByNameMeaning(xs);
    forall key | key in CallAttributes(f, n) ensures Value(key, CallAttributes(f, n)[key], f, keys) {
      var v := CallAttributes(f, n)[key];
      assert v in f.attributeProtos || v in n.attributes;
    }
  }

  ghost predicate AllValues(m: AttributeMap, f: Function, keys: map<string, Func>) {
    forall key | key in m :: Value(key, m[key], f, keys)
  }

  lemma {:induction false} BoundWellTyped(n: Node, m: AttributeMap)
    requires forall a | a in n.attributes && a.refAttrName == "" :: WellTyped(a)
    requires forall key | key in m :: WellTyped(m[key])
    ensures AllWellTyped(Bound(n, m).attributes)
  {
    BoundAttributesComeFrom(n.attributes, m);
    forall y | y in Bound(n, m).attributes ensures WellTyped(y) {
      var a :| a in n.attributes && ComesFrom(y, a, m);
      if a.refAttrName == "" {
        assert WellTyped(a) && (a.graphs == [] ==> BindGraphs(a.graphs, m) == []);
      } else {
        assert WellTyped(m[a.refAttrName]);
      }
    }
  }

  // An argument that is still as a template is still when bound, provided its references are among those forwarded.
  lemma {:induction false} BoundStill(a: Attribute, m: AttributeMap, f: Function, keys: map<string, Func>)
    requires a.refAttrName == "" && ArgumentStill(a, f.attributeProtos, keys) && AllValues(m, f, keys)
    requires forall x | x in BodiesVisits(a, true) :: x in Visits(f.nodes, true)
    ensures Still(BindAttribute(a, m), keys)
  {
    var p := iset x | StillNode(x, keys);
    forall x | x in BodiesVisits(a, true) ensures BindsInto(x, m, p) {
      assert StillTemplateNode(x, f.attributeProtos, keys);
      BoundWellTyped(x, m);
      forall b | b in x.attributes ensures ValueInto(x, b, m, p) {
        if b.refAttrName != "" && b.refAttrName in m && !IsParameterRef(x, b) {
          assert Value(b.refAttrName, m[b.refAttrName], f, keys);
          assert b.refAttrName in Forwarded(f);
        }
      }
    }
    BoundBodiesVisits(a, m, p);
  }

  // The context of one function: its body, its imports, its rank.
  ghost predicate At(c: Context, order: seq<Func>, k: nat) {
    Ranked(c, order) && FunctionsHarmless(c) && k < |c.functions| && InRange(c.functions[k])
  }

  ghost function ImportsAt(c: Context, k: nat): Imports
    requires k < |c.functions| && InRange(c.functions[k])
  {
    ImportsOf(c.functions[k].opsetImports, true).value
  }

  lemma {:induction false} CalleesRankLower(c: Context, order: seq<Func>, k: nat, n: Node)
    requires At(c, order, k)
    requires var site := SiteOf(c.functions, c.registry, k); Calls(n, site) <= FunctionCallees(c.functions[k], site)
    ensures CallsBelow(n, ImportsAt(c, k), c, order, Rank(order, k))
  {
    if c.IsLocalCall(n, ImportsAt(c, k)) {
      var d := c.Keys()[CalleeId(n)];
      assert d in Calls(n, SiteOf(c.functions, c.registry, k));
      assert d in Callees(CallGraphOf(c.functions, c.registry), k);
      RankDecreases(CallGraphOf(c.functions, c.registry), order, k, d);
    }
  }

  lemma {:induction false} DefaultIsSafe(c: Context, order: seq<Func>, k: nat, d: Attribute)
    requires At(c, order, k) && d in c.functions[k].attributeProtos
    ensures AllIn(BodiesVisits(d, false), Safe(ImportsAt(c, k), c, order, Rank(order, k)))
  {
    var site, f := SiteOf(c.functions, c.registry, k), c.functions[k];
    assert FunctionHarmless(f, ImportsAt(c, k), c) && DefaultHarmless(d, ImportsAt(c, k), c);
    BodiesVisitsInside(d, site, false);
    AttributeInside(f.attributeProtos, d, site);
    forall x | x in BodiesVisits(d, false) ensures x in Safe(ImportsAt(c, k), c, order, Rank(order, k)) {
      assert Inside(x, BodiesVisits(d, false), AttributeCallees(d, site), site, false);
      CalleesRankLower(c, order, k, x);
    }
  }

  lemma {:induction false} AttributeInside(xs: seq<Attribute>, a: Attribute, site: Site)
    requires a in xs
    ensures AttributeCallees(a, site) <= AttributesCallees(xs, site)
  {
    if a != xs[0] {
      AttributeInside(xs[1..], a, site);
    }
  }

  lemma {:induction false} BoundNodeIsHarmless(c: Context, order: seq<Func>, k: nat, n: Node, m: AttributeMap)
    requires At(c, order, k) && n in Visits(c.functions[k].nodes, true) && AllValues(m, c.functions[k], c.Keys())
    ensures Harmless(Bound(n, m), ImportsAt(c, k), c)
  {
    var f, imports, x := c.functions[k], ImportsAt(c, k), Bound(n, m);
    assert FunctionHarmless(f, imports, c) && HarmlessTemplate(n, imports, f.attributeProtos, c);
    BoundWellTyped(n, m);
    BoundAttributesComeFrom(n.attributes, m);
    if c.IsLocalCall(x, imports) {
      var g := c.FunctionOf(CalleeId(x));
      forall y | y in x.attributes && !IsParameterRef(x, y) && y.name in Forwarded(g) ensures Still(y, c.Keys()) {
        var a :| a in n.attributes && ComesFrom(y, a, m);
        assert ArgumentStill(a, f.attributeProtos, c.Keys());
        BoundArgumentIsStill(c, k, n, a, y, m);
      }
    }
  }

  lemma {:induction false} BoundArgumentIsStill(c: Context, k: nat, n: Node, a: Attribute, y: Attribute,
                                                m: AttributeMap)
    requires k < |c.functions| && InRange(c.functions[k])
    requires n in Visits(c.functions[k].nodes, true) && a in n.attributes && ComesFrom(y, a, m)
    requires !IsParameterRef(n, a) && ArgumentStill(a, c.functions[k].attributeProtos, c.Keys())
    requires AllValues(m, c.functions[k], c.Keys())
    ensures Still(y, c.Keys())
  {
    var f := c.functions[k];
    if a.refAttrName == "" {
      VisitsInside(f.nodes, SiteOf(c.functions, c.registry, k), true);
      assert Inside(n, Visits(f.nodes, true), NodesCallees(f.nodes, SiteOf(c.functions, c.registry, k)),
                    SiteOf(c.functions, c.registry, k), true);
      BoundStill(a, m, f, c.Keys());
    } else {
      var v := m[a.refAttrName];
      assert Value(a.refAttrName, v, f, c.Keys()) && a.refAttrName in Forwarded(f);
      assert Still(v, c.Keys());
      assert BodiesVisits(y, false) == BodiesVisits(v, false);
    }
  }

  lemma {:induction false} BoundBodyIsSafe(c: Context, order: seq<Func>, k: nat, n: Node)
    requires At(c, order, k) && Passes(n, c.functions[k], c.Keys())
    ensures AllIn(Visits(BindNodes(c.functions[k].nodes, CallAttributes(c.functions[k], n)), false),
                  Safe(ImportsAt(c, k), c, order, Rank(order, k)))
  {
    var f, imports, site := c.functions[k], ImportsAt(c, k), SiteOf(c.functions, c.registry, k);
    var m, p := CallAttributes(f, n), Safe(imports, c, order, Rank(order, k));
    assert FunctionHarmless(f, imports, c);
    assert forall d | d in f.attributeProtos :: DefaultHarmless(d, imports, c);
    CallValues(n, f, c.Keys());
    VisitsInside(f.nodes, site, true);
    forall x | x in Visits(f.nodes, true) ensures BindsInto(x, m, p) {
      assert Inside(x, Visits(f.nodes, true), NodesCallees(f.nodes, site), site, true);
      BoundNodeIsHarmless(c, order, k, x, m);
      assert Calls(Bound(x, m), site) == Calls(x, site);
      CalleesRankLower(c, order, k, Bound(x, m));
      forall a | a in x.attributes ensures ValueInto(x, a, m, p) {
        if a.refAttrName != "" && a.refAttrName in m && !IsParameterRef(x, a) {
          ValueIsSafe(c, order, k, a.refAttrName, m[a.refAttrName]);
        }
      }
    }
    BoundVisits(f.nodes, m, p);
  }

  lemma {:induction false} ValueIsSafe(c: Context, order: seq<Func>, k: nat, key: string, v: Attribute)
    requires At(c, order, k) && Value(key, v, c.functions[k], c.Keys()) && key in Forwarded(c.functions[k])
    ensures AllIn(BodiesVisits(v, false), Safe(ImportsAt(c, k), c, order, Rank(order, k)))
  {
    if v in c.functions[k].attributeProtos && v.name == key {
      DefaultIsSafe(c, order, k, v);
    } else {
      forall x | x in BodiesVisits(v, false) ensures x in Safe(ImportsAt(c, k), c, order, Rank(order, k)) {
        assert StillNode(x, c.Keys());
      }
    }
  }

  // ----- the traversal -----

  lemma {:induction false} SafeNodesNeverRecursive(ns: seq<Node>, imports: Imports, active: set<string>, c: Context,
                                                   order: seq<Func>, r: nat)
    requires Ranked(c, order) && FunctionsHarmless(c) && ActiveAbove(c, order, active, r)
    requires AllIn(Visits(ns, false), Safe(imports, c, order, r))
    ensures NotRecursive(NodesFinding(ns, BOUND, imports, active, c))
    decreases c.Keys().Keys - active, ns, 0
  {
    if ns != [] {
      SafeNodeNeverRecursive(ns[0], imports, active, c, order, r);
      SafeNodesNeverRecursive(ns[1..], imports, active, c, order, r);
    }
  }

  lemma {:induction false} SafeNodeNeverRecursive(n: Node, imports: Imports, active: set<string>, c: Context,
                                                  order: seq<Func>, r: nat)
    requires Ranked(c, order) && FunctionsHarmless(c) && ActiveAbove(c, order, active, r)
    requires n in Safe(imports, c, order, r)
    requires AllIn(AttributesVisits(n, n.attributes, false), Safe(imports, c, order, r))
    ensures NotRecursive(NodeFinding(n, BOUND, imports, active, c))
    decreases c.Keys().Keys - active, n, 1
  {
    SafeAttributesNeverRecursive(n, n.attributes, imports, active, c, order, r);
    var inside := AttributesFinding(n, n.attributes, BOUND, imports, active, c);
    if inside.Clean? && c.IsLocalCall(n, imports) {
      var k := CallEnters(n, imports, active, c, order, r);
      var f := c.functions[k];
      SafeNodesNeverRecursive(BindNodes(f.nodes, CallAttributes(f, n)), ImportsAt(c, k), active + {CalleeId(n)}, c,
                              order, Rank(order, k));
    }
  }

  // A safe call enters function `k`, whose bound body is safe below the rank of `k`.
  lemma {:induction false} CallEnters(n: Node, imports: Imports, active: set<string>, c: Context, order: seq<Func>,
                                      r: nat)
    returns (k: nat)
    requires Ranked(c, order) && FunctionsHarmless(c) && ActiveAbove(c, order, active, r)
    requires n in Safe(imports, c, order, r) && c.IsLocalCall(n, imports)
    requires AttributesFinding(n, n.attributes, BOUND, imports, active, c).Clean?
    ensures k < |c.functions| && InRange(c.functions[k]) && c.functions[k] == c.FunctionOf(CalleeId(n))
    ensures CalleeId(n) !in active && ActiveAbove(c, order, active + {CalleeId(n)}, Rank(order, k))
    ensures AllIn(Visits(BindNodes(c.functions[k].nodes, CallAttributes(c.functions[k], n)), false),
                  Safe(ImportsAt(c, k), c, order, Rank(order, k)))
  {
    k := c.Keys()[CalleeId(n)];
    PositionsMeaning(Ids(c.functions));
    CleanCallPasses(n, imports, active, c);
    BoundBodyIsSafe(c, order, k, n);
  }

  // Once the attributes of a call are clean, its parameter references are strings, which hold no graph.
  lemma {:induction false} CleanCallPasses(n: Node, imports: Imports, active: set<string>, c: Context)
    requires Harmless(n, imports, c) && c.IsLocalCall(n, imports)
    requires AttributesFinding(n, n.attributes, BOUND, imports, active, c).Clean?
    ensures Passes(n, c.FunctionOf(CalleeId(n)), c.Keys())
  {
    AttributesFindingMeaning(n, n.attributes, BOUND, imports, active, c);
    forall a | a in n.attributes && a.name in Forwarded(c.FunctionOf(CalleeId(n))) ensures Still(a, c.Keys()) {
      assert ReferenceValid(n, a, BOUND, c);
      if IsParameterRef(n, a) {
        assert BodiesVisits(a, false) == {};
      }
    }
  }

  lemma {:induction false} SafeAttributesNeverRecursive(n: Node, xs: seq<Attribute>, imports: Imports,
                                                        active: set<string>, c: Context, order: seq<Func>, r: nat)
    requires Ranked(c, order) && FunctionsHarmless(c) && ActiveAbove(c, order, active, r) && AllWellTyped(xs)
    requires AllIn(AttributesVisits(n, xs, false), Safe(imports, c, order, r))
    ensures NotRecursive(AttributesFinding(n, xs, BOUND, imports, active, c))
    decreases c.Keys().Keys - active, xs, 0
  {
    if xs != [] {
      assert xs[0] in xs && forall a | a in xs[1..] :: a in xs;
      if IsParameterRef(n, xs[0]) {
        if ReferenceFinding(n, xs[0], BOUND, c).Clean? {
          assert BodiesFinding(xs[0], BOUND, imports, active, c) == Clean(false);
        }
      } else {
        SafeBodiesNeverRecursive(xs[0], imports, active, c, order, r);
      }
      SafeAttributesNeverRecursive(n, xs[1..], imports, active, c, order, r);
    }
  }

  lemma {:induction false} SafeBodiesNeverRecursive(a: Attribute, imports: Imports, active: set<string>, c: Context,
                                                    order: seq<Func>, r: nat)
    requires Ranked(c, order) && FunctionsHarmless(c) && ActiveAbove(c, order, active, r)
    requires AllIn(BodiesVisits(a, false), Safe(imports, c, order, r))
    ensures NotRecursive(BodiesFinding(a, BOUND, imports, active, c))
    decreases c.Keys().Keys - active, a, 1
  {
    if a.g.Some? {
      SafeNodesNeverRecursive(a.g.value.nodes, imports, active, c, order, r);
    }
    SafeGraphsNeverRecursive(a.graphs, imports, active, c, order, r);
  }

  lemma {:induction false} SafeGraphsNeverRecursive(gs: seq<Graph>, imports: Imports, active: set<string>, c: Context,
                                                    order: seq<Func>, r: nat)
    requires Ranked(c, order) && FunctionsHarmless(c) && ActiveAbove(c, order, active, r)
    requires AllIn(GraphsVisits(gs, false), Safe(imports, c, order, r))
    ensures NotRecursive(GraphsFinding(gs, BOUND, imports, active, c))
    decreases c.Keys().Keys - active, gs, 0
  {
    if gs != [] {
      SafeNodesNeverRecursive(gs[0].nodes, imports, active, c, order, r);
      SafeGraphsNeverRecursive(gs[1..], imports, active, c, order, r);
    }
  }

  // ----- without binding no function is entered -----

  lemma {:induction false} UnboundNodesNeverRecursive(ns: seq<Node>, mode: Mode, imports: Imports, active: set<string>,
                                                      c: Context)
    requires !mode.bindFunctions
    ensures NotRecursive(NodesFinding(ns, mode, imports, active, c))
    decreases ns, 0
  {
    if ns != [] {
      UnboundAttributesNeverRecursive(ns[0], ns[0].attributes, mode, imports, active, c);
      UnboundNodesNeverRecursive(ns[1..], mode, imports, active, c);
    }
  }

  lemma {:induction false} UnboundAttributesNeverRecursive(n: Node, xs: seq<Attribute>, mode: Mode, imports: Imports,
                                                           active: set<string>, c: Context)
    requires !mode.bindFunctions
    ensures NotRecursive(AttributesFinding(n, xs, mode, imports, active, c))
    decreases xs, 0
  {
    if xs != [] {
      if xs[0].g.Some? {
        UnboundNodesNeverRecursive(xs[0].g.value.nodes, mode, imports, active, c);
      }
      UnboundGraphsNeverRecursive(xs[0].graphs, mode, imports, active, c);
      UnboundAttributesNeverRecursive(n, xs[1..], mode, imports, active, c);
    }
  }

  lemma {:induction false} UnboundGraphsNeverRecursive(gs: seq<Graph>, mode: Mode, imports: Imports,
                                                       active: set<string>, c: Context)
    requires !mode.bindFunctions
    ensures NotRecursive(GraphsFinding(gs, mode, imports, active, c))
    decreases gs, 0
  {
    if gs != [] {
      UnboundNodesNeverRecursive(gs[0].nodes, mode, imports, active, c);
      UnboundGraphsNeverRecursive(gs[1..], mode, imports, active, c);
    }
  }

  lemma {:induction false} UnboundFunctionsNeverRecursive(fs: seq<Function>, c: Context)
    ensures NotRecursive(FunctionsFinding(fs, c))
  {
    if fs != [] && ImportsOf(fs[0].opsetImports, true).Some? {
      UnboundNodesNeverRecursive(fs[0].nodes, Mode(false, true), ImportsOf(fs[0].opsetImports, true).value, {}, c);
      UnboundFunctionsNeverRecursive(fs[1..], c);
    }
  }

  // ----- the theorems -----

  // A ranked model is never reported as recursive if the graphs that its calls pass under forwarded names call no local
  // function themselves. In particular: if no call passes a graph.
  lemma {:induction false} HarmlessModelsNeverRecursive(graph: Graph, imports: Imports, c: Context, order: seq<Func>)
    requires Ranked(c, order) && FunctionsHarmless(c) && AllHarmless(Visits(graph.nodes, false), imports, c)
    ensures NotRecursive(NodesFinding(graph.nodes, BOUND, imports, {}, c))
    ensures NotRecursive(ModelFinding(graph, imports, c))
  {
    UnboundNodesNeverRecursive(graph.nodes, Mode(false, false), imports, {}, c);
    UnboundFunctionsNeverRecursive(c.functions, c);
    SafeNodesNeverRecursive(graph.nodes, imports, {}, c, order, |order| + 1);
  }

  // No string attribute anywhere holds a graph.
  ghost predicate NodesWellTyped(nodes: set<Node>) {
    forall n | n in nodes :: AllWellTyped(n.attributes)
  }

  ghost predicate FunctionWellTyped(f: Function) {
    && NodesWellTyped(Visits(f.nodes, true)) && AllWellTyped(f.attributeProtos)
    && forall d | d in f.attributeProtos :: NodesWellTyped(BodiesVisits(d, false))
  }

  ghost predicate FunctionsWellTyped(c: Context) {
    forall f | f in c.functions :: FunctionWellTyped(f)
  }

  ghost predicate NothingForwarded(c: Context) {
    forall f | f in c.functions :: Forwarded(f) == {}
  }

  // Where no function forwards anything, no main graph is reported as recursive.
  lemma {:induction false} NothingForwardedIsSafe(graph: Graph, imports: Imports, c: Context, order: seq<Func>)
    requires Ranked(c, order) && FunctionsWellTyped(c) && NothingForwarded(c)
    requires NodesWellTyped(Visits(graph.nodes, false))
    ensures NotRecursive(ModelFinding(graph, imports, c))
  {
    PositionsMeaning(Ids(c.functions));
    forall id | id in c.Keys() ensures Forwarded(c.FunctionOf(id)) == {} {
      assert c.FunctionOf(id) in c.functions;
    }
    forall k: nat | k < |c.functions|
      ensures FunctionHarmless(c.functions[k], ImportsOf(c.functions[k].opsetImports, true).value, c)
    {
      assert FunctionWellTyped(c.functions[k]);
    }
    HarmlessModelsNeverRecursive(graph, imports, c, order);
  }
}
