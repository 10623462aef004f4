// What the scoping rules leave open: inputs and initializers of nested graphs may hide names of enclosing scopes, and
// sibling graphs may share names. Names are unique along a path of scopes exactly when no graph declares a visible
// name.

module Shadowing {
  import opened Basics
  import opened Onnx
  import opened Opsets
  import opened OperatorChecks
  import opened Scopes

  // A graph together with the names that are visible where it stands.
  datatype Place = Place(graph: Graph, seen: set<string>)

  // The graph and the graphs nested in it, at every depth.
  function GraphPlaces(g: Graph, outer: set<string>): set<Place>
    decreases g, 1
  {
    {Place(g, outer)} + NodesPlaces(g.nodes, outer, Declared(g))
  }

  function NodesPlaces(ns: seq<Node>, outer: set<string>, local: set<string>): set<Place>
    decreases ns, 0
  {
    if ns == [] then {}
    else
      AttributesPlaces(ns[0].attributes, outer + local) +
      NodesPlaces(ns[1..], outer, local + Names(NonEmpty(ns[0].outputs)))
  }

  function AttributesPlaces(xs: seq<Attribute>, visible: set<string>): set<Place>
    decreases xs, 0
  {
    if xs == [] then {}
    else
      (if xs[0].g.Some? then GraphPlaces(xs[0].g.value, visible) else {}) + GraphsPlaces(xs[0].graphs, visible) +
      AttributesPlaces(xs[1..], visible)
  }

  function GraphsPlaces(gs: seq<Graph>, visible: set<string>): set<Place>
    decreases gs, 0
  {
    if gs == [] then {} else GraphPlaces(gs[0], visible) + GraphsPlaces(gs[1..], visible)
  }

  // Every name that the graph declares or computes is new where the graph stands.
  ghost predicate AllNew(p: Place) {
    Declared(p.graph) + OutputsOf(p.graph.nodes) !! p.seen
  }

  ghost predicate DeclaresNew(p: Place) {
    Declared(p.graph) !! p.seen
  }

  // ----- the exact condition -----

  ghost predicate AllScoped(ps: set<Place>) {
    forall p | p in ps :: GraphScoped(p.graph, p.seen)
  }

  lemma {:induction false} PlacesAreScoped(g: Graph, outer: set<string>)
    requires GraphScoped(g, outer)
    ensures AllScoped(GraphPlaces(g, outer))
    decreases g, 1
  {
    NodesPlacesAreScoped(g.nodes, outer, outer, Declared(g));
  }

  lemma {:induction false} NodesPlacesAreScoped(ns: seq<Node>, captured: set<string>, outer: set<string>,
                                                local: set<string>)
    requires NodesScoped(ns, captured, outer, local)
    ensures AllScoped(NodesPlaces(ns, outer, local))
    decreases ns, 0
  {
    if ns != [] {
      AttributesPlacesAreScoped(ns[0].attributes, outer + local);
      NodesPlacesAreScoped(ns[1..], captured, outer, local + Names(NonEmpty(ns[0].outputs)));
    }
  }

  lemma {:induction false} AttributesPlacesAreScoped(xs: seq<Attribute>, visible: set<string>)
    requires AttributesScoped(xs, visible)
    ensures AllScoped(AttributesPlaces(xs, visible))
    decreases xs, 0
  {
    if xs != [] {
      if xs[0].g.Some? {
        PlacesAreScoped(xs[0].g.value, visible);
      }
      GraphsPlacesAreScoped(xs[0].graphs, visible);
      AttributesPlacesAreScoped(xs[1..], visible);
    }
  }

  lemma {:induction false} GraphsPlacesAreScoped(gs: seq<Graph>, visible: set<string>)
    requires GraphsScoped(gs, visible)
    ensures AllScoped(GraphsPlaces(gs, visible))
    decreases gs, 0
  {
    if gs != [] {
      PlacesAreScoped(gs[0], visible);
      GraphsPlacesAreScoped(gs[1..], visible);
    }
  }

  // Nodes never define a name that an enclosing scope shows.
  lemma {:induction false} OutputsAreNew(ns: seq<Node>, captured: set<string>, outer: set<string>, local: set<string>)
    requires NodesScoped(ns, captured, outer, local)
    ensures OutputsOf(ns) !! outer
  {
    if ns != [] {
      UniqueMeaning(NonEmpty(ns[0].outputs), outer + local);
      OutputsAreNew(ns[1..], captured, outer, local + Names(NonEmpty(ns[0].outputs)));
    }
  }

  // In an accepted graph no name hides another, at any depth, exactly when no nested graph declares a visible name.
  lemma {:induction false} UniqueNamesExactly(g: Graph, outer: set<string>)
    requires GraphScoped(g, outer)
    ensures (forall p | p in GraphPlaces(g, outer) :: AllNew(p)) <==>
      forall p | p in GraphPlaces(g, outer) :: DeclaresNew(p)
  {
    PlacesAreScoped(g, outer);
    forall p | p in GraphPlaces(g, outer) ensures AllNew(p) <==> DeclaresNew(p) {
      OutputsAreNew(p.graph.nodes, p.seen, p.seen, Declared(p.graph));
    }
  }

  // ----- a graph that is accepted and has hidden and shared names -----

  function Body(name: string): Graph {
    Graph(name, [ValueInfo("x", Opaque(0))], [], [], [], [], [], [])
  }

  // Two sibling graphs with an input "x", inside a graph with an input "x". They are attributes of an operator of a
  // custom domain.
  const HOLD := Node("d", "Hold", "", ["x"], ["y"], [Attribute("bodies", "", false, "", None, [Body("a"), Body("b")])])
  const OUTER := Graph("outer", [ValueInfo("x", Opaque(0))], [], [], [], [], [], [HOLD])

  lemma {:induction false} BodyIsAccepted(name: string, s: Settings)
    requires name != "" && s.graphOk(Body(name), s.isMainGraph)
    ensures Declared(Body(name)) == {"x"}
    ensures GraphScoped(Body(name), {"x"}) && GraphWellFormed(Body(name), s)
  {
    var g := Body(name);
    assert InputNames(g) == ["x"] && ["x"][1..] == [];
    assert AllInitializers(g) == [] && InitializerNames(AllInitializers(g)) == [] &&
      InitializerNames(g.initializers) == [];
    assert Names(["x"]) == {"x"} && Names([]) == {};
  }

  // The custom domain is imported and not checked, and no schema is registered for the operator.
  predicate CustomAllowed(s: Settings) {
    && "d" in s.imports && !s.operators.checkCustomDomain
    && s.operators.registry("Hold", s.imports["d"], "d").None?
  }

  lemma {:induction false} HoldIsAllowed(s: Settings)
    requires CustomAllowed(s)
    ensures OperatorAllowed(HOLD, s.imports, s.operators)
  {
    assert |"d"| == 1 && |""| == 0 && |"ai.onnx.ml"| == 10 && |"ai.onnx.training"| == 16;
    assert |"ai.onnx"| == 7 && |"onnx.ai"| == 7;
    assert SchemaDomain("d") == "d" && "d" !in BUILT_IN_DOMAINS;
  }

  lemma {:induction false} HiddenAndSharedNamesAreAccepted(s: Settings)
    requires CustomAllowed(s)
    requires s.graphOk(OUTER, s.isMainGraph) && s.graphOk(Body("a"), false) && s.graphOk(Body("b"), false)
    requires s.payloadOk(HOLD, s.isMainGraph)
    ensures GraphScoped(OUTER, {}) && GraphWellFormed(OUTER, s)
    ensures Place(Body("a"), {"x"}) in GraphPlaces(OUTER, {}) && Place(Body("b"), {"x"}) in GraphPlaces(OUTER, {})
    ensures !DeclaresNew(Place(Body("a"), {"x"})) && Declared(Body("a")) == Declared(Body("b")) == {"x"}
  {
    HoldIsAllowed(s);
    BodyIsAccepted("a", s.Nested());
    BodyIsAccepted("b", s.Nested());
    var a, gs := HOLD.attributes[0], [Body("a"), Body("b")];
    assert gs[1..] == [Body("b")] && gs[1..][1..] == [];
    assert HOLD.attributes[1..] == [] && OUTER.nodes[1..] == [];
    assert GraphsScoped(gs, {"x"}) && GraphsWellFormed(gs, s.Nested());
    assert InputNames(OUTER) == ["x"] && ["x"][1..] == [] && Names(["x"]) == {"x"} && Names([]) == {};
    assert AllInitializers(OUTER) == [] && InitializerNames(AllInitializers(OUTER)) == [];
    assert InitializerNames(OUTER.initializers) == [] && Declared(OUTER) == {"x"};
    assert NonEmpty(HOLD.inputs) == ["x"] by {
      assert HOLD.inputs[1..] == [];
    }
    assert NonEmpty(HOLD.outputs) == ["y"] by {
      assert HOLD.outputs[1..] == [];
    }
    assert ["y"][1..] == [];
    assert AttributeNames(HOLD.attributes) == ["bodies"] && ["bodies"][1..] == [];
    assert {} + {"x"} == {"x"};
    assert AttributesScoped(HOLD.attributes, {"x"}) && AttributesWellFormed(HOLD.attributes, s);
    assert NodeScoped(HOLD, {"x"}, {"x"}) && NodeWellFormed(HOLD, s);
    assert GraphsPlaces(gs, {"x"}) >= {Place(Body("a"), {"x"}), Place(Body("b"), {"x"})};
    assert AttributesPlaces(HOLD.attributes, {"x"}) >= GraphsPlaces(gs, {"x"});
  }
}
