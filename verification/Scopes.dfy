// Static single assignment and topological order over nested lexical scopes: check_graph, check_function and the
// recursion of check_node and check_attribute (onnx_lib/checker.cc), on the chained scopes of onnx_lib/checker.h.

module Scopes {
  import opened Basics
  import opened Onnx
  import opened Opsets
  import opened OperatorChecks

  // The context of the checks. Those that look neither at scopes nor at operators are left open: `graphOk` for the
  // values, tensors and types of a graph, `payloadOk` for the payloads of a node's attributes, both given whether they
  // stand in the main graph, and `functionOk` for the IR version of the types that a function mentions and for the
  // presence of its domain.
  datatype Settings = Settings(
    irVersion: int,
    isMainGraph: bool,
    imports: Imports,
    operators: Operators,
    graphOk: (Graph, bool) -> bool,
    payloadOk: (Node, bool) -> bool,
    functionOk: Function -> bool)
  {
    // The context of the graphs in attributes.
    function Nested(): Settings {
      this.(isMainGraph := false)
    }
  }

  // ----- names -----

  // The names are pairwise distinct and none of them is in `seen`.
  predicate Unique(names: seq<string>, seen: set<string>) {
    names == [] || (names[0] !in seen && Unique(names[1..], seen + {names[0]}))
  }

  lemma {:induction false} UniqueMeaning(names: seq<string>, seen: set<string>)
    ensures Unique(names, seen) <==>
      Distinct(names) && forall i | 0 <= i < |names| :: names[i] !in seen
  {
    if names != [] {
      var rest := names[1..];
      UniqueMeaning(rest, seen + {names[0]});
      assert forall i | 0 < i < |names| :: names[i] == rest[i - 1];
      assert names == [names[0]] + rest;
      if Unique(names, seen) {
        assert forall i, j | 0 <= i < j < |names| :: names[j] == rest[j - 1] && (i > 0 ==> names[i] == rest[i - 1]);
        assert Distinct(names);
      } else if Distinct(names) {
        assert forall i | 0 <= i < |rest| :: rest[i] == names[i + 1] && rest[i] != names[0];
        assert Distinct(rest);
      }
    }
  }

  // An empty name stands for an optional input or output that is absent.
  function NonEmpty(names: seq<string>): seq<string> {
    if names == [] then [] else (if names[0] == "" then [] else [names[0]]) + NonEmpty(names[1..])
  }

  function Names(names: seq<string>): set<string> {
    set x | x in names
  }

  function InputNames(g: Graph): seq<string> {
    seq(|g.inputs|, i requires 0 <= i < |g.inputs| => g.inputs[i].name)
  }

  function InitializerNames(inits: seq<Initializer>): seq<string> {
    seq(|inits|, i requires 0 <= i < |inits| => inits[i].name)
  }

  function AllInitializers(g: Graph): seq<Initializer> {
    g.initializers + g.sparseInitializers + g.extendedInitializers
  }

  function AttributeNames(xs: seq<Attribute>): seq<string> {
    seq(|xs|, i requires 0 <= i < |xs| => xs[i].name)
  }

  // The names that a graph declares before its first node.
  function Declared(g: Graph): set<string> {
    Names(InputNames(g)) + Names(InitializerNames(AllInitializers(g)))
  }

  // The names of the inputs and of all three kinds of initializers.
  lemma {:induction false} DeclaredExactly(g: Graph, x: string)
    ensures x in Declared(g) <==>
      || (exists v :: v in g.inputs && v.name == x)
      || (exists t :: t in g.initializers && t.name == x)
      || (exists t :: t in g.sparseInitializers && t.name == x)
      || (exists t :: t in g.extendedInitializers && t.name == x)
  {
    if v :| v in g.inputs && v.name == x {
      var i :| 0 <= i < |g.inputs| && g.inputs[i] == v;
      assert InputNames(g)[i] == x;
    }
    InitializerNamed(AllInitializers(g), x);
    assert forall t :: t in AllInitializers(g) <==>
      t in g.initializers || t in g.sparseInitializers || t in g.extendedInitializers;
  }

  lemma {:induction false} InitializerNamed(ts: seq<Initializer>, x: string)
    ensures x in InitializerNames(ts) <==> exists t :: t in ts && t.name == x
  {
    if t :| t in ts && t.name == x {
      var i :| 0 <= i < |ts| && ts[i] == t;
      assert InitializerNames(ts)[i] == x;
    }
  }

  lemma {:induction false} PresentNames(names: seq<string>)
    ensures Names(NonEmpty(names)) == Names(names) - {""}
  {
    if names != [] {
      PresentNames(names[1..]);
      assert names == [names[0]] + names[1..];
      assert Names(names) == {names[0]} + Names(names[1..]);
      assert NonEmpty(names) == (if names[0] == "" then [] else [names[0]]) + NonEmpty(names[1..]);
      assert Names(NonEmpty(names)) == ({names[0]} - {""}) + Names(NonEmpty(names[1..]));
    }
  }

  // A list of nodes defines the outputs that are present.
  lemma {:induction false} OutputsExactly(ns: seq<Node>, x: string)
    ensures x in OutputsOf(ns) <==> x != "" && exists n :: n in ns && x in n.outputs
  {
    if ns != [] {
      PresentNames(ns[0].outputs);
      OutputsExactly(ns[1..], x);
      assert forall n :: n in ns <==> n == ns[0] || n in ns[1..];
    }
  }

  // ----- the scoping rules -----

  // Data flow of a graph nested in scopes that show `outer`.
  ghost predicate GraphScoped(g: Graph, outer: set<string>)
    decreases g, 1
  {
    && NodesScoped(g.nodes, outer, outer, Declared(g))
    && OutputsDefined(g.outputs, Declared(g) + OutputsOf(g.nodes))
  }

  // A graph returns only names of its own, never names of an outer scope.
  predicate OutputsDefined(outputs: seq<ValueInfo>, local: set<string>) {
    forall i | 0 <= i < |outputs| :: outputs[i].name in local
  }

  // Nodes in list order. They may read `captured` and the names defined so far; subgraphs see all of `outer` as well.
  ghost predicate NodesScoped(ns: seq<Node>, captured: set<string>, outer: set<string>, local: set<string>)
    decreases ns, 0
  {
    ns == [] || (
      && NodeScoped(ns[0], captured + local, outer + local)
      && NodesScoped(ns[1..], captured, outer, local + Names(NonEmpty(ns[0].outputs))))
  }

  // Every present input is readable, every subgraph is scoped in what is visible, and no output rebinds a visible name.
  ghost predicate NodeScoped(n: Node, readable: set<string>, visible: set<string>)
    decreases n, 2
  {
    && Names(NonEmpty(n.inputs)) <= readable
    && AttributesScoped(n.attributes, visible)
    && Unique(NonEmpty(n.outputs), visible)
  }

  ghost predicate AttributesScoped(xs: seq<Attribute>, visible: set<string>)
    decreases xs, 0
  {
    xs == [] || (
      && (xs[0].g.Some? ==> GraphScoped(xs[0].g.value, visible))
      && GraphsScoped(xs[0].graphs, visible)
      && AttributesScoped(xs[1..], visible))
  }

  ghost predicate GraphsScoped(gs: seq<Graph>, visible: set<string>)
    decreases gs, 0
  {
    gs == [] || (GraphScoped(gs[0], visible) && GraphsScoped(gs[1..], visible))
  }

  function OutputsOf(ns: seq<Node>): set<string> {
    if ns == [] then {} else Names(NonEmpty(ns[0].outputs)) + OutputsOf(ns[1..])
  }

  // The same rule read node by node: node `k` sees the names declared at the start and the outputs of earlier nodes.
  lemma {:induction false} NodesScopedMeaning(ns: seq<Node>, captured: set<string>, outer: set<string>,
                                              local: set<string>)
    ensures NodesScoped(ns, captured, outer, local) <==>
      forall k | 0 <= k < |ns| ::
        NodeScoped(ns[k], captured + (local + OutputsOf(ns[..k])), outer + (local + OutputsOf(ns[..k])))
  {
    if ns != [] {
      var first := Names(NonEmpty(ns[0].outputs));
      NodesScopedMeaning(ns[1..], captured, outer, local + first);
      assert local + OutputsOf(ns[..0]) == local;
      forall k | 0 <= k < |ns| - 1
        ensures local + first + OutputsOf(ns[1..][..k]) == local + OutputsOf(ns[..k + 1]) && ns[1..][k] == ns[k + 1]
      {
        assert ns[..k + 1][1..] == ns[1..][..k];
      }
      assert NodesScoped(ns, captured, outer, local) <==>
        NodeScoped(ns[0], captured + local, outer + local) && NodesScoped(ns[1..], captured, outer, local + first);
      assert forall k | 0 < k < |ns| :: ns[k] == ns[1..][k - 1];
    }
  }

  // The other rules of the same functions, at every depth.
  ghost predicate GraphWellFormed(g: Graph, s: Settings)
    decreases g, 1
  {
    && g.name != "" && s.graphOk(g, s.isMainGraph)
    && Unique(InputNames(g), {})
    && Unique(InitializerNames(AllInitializers(g)), {""})
    && (s.irVersion <= 3 ==> Names(InitializerNames(g.initializers)) <= Names(InputNames(g)))
    && NodesWellFormed(g.nodes, s)
  }

  // Up to IR version 3, dense initializers must be inputs as well; from 4 on they need not.
  lemma {:induction false} InitializersWithoutInputs(g: Graph, t: Initializer, s: Settings)
    requires g == Graph("g", [], [], [], [t], [], [], []) && t.name != "" && s.graphOk(g, s.isMainGraph)
    ensures GraphWellFormed(g, s) <==> s.irVersion >= 4
  {
    assert AllInitializers(g) == [t] && InitializerNames([t]) == [t.name] && [t.name][1..] == [];
    assert InitializerNames(g.initializers) == [t.name] && t.name in Names([t.name]);
    assert Unique([t.name], {""}) && Unique(InitializerNames(AllInitializers(g)), {""});
    assert InputNames(g) == [] && Names([]) == {};
    assert !(Names([t.name]) <= {});
    assert g.name != "" && NodesWellFormed(g.nodes, s);
  }

  ghost predicate NodesWellFormed(ns: seq<Node>, s: Settings)
    decreases ns, 0
  {
    ns == [] || (NodeWellFormed(ns[0], s) && NodesWellFormed(ns[1..], s))
  }

  ghost predicate NodeWellFormed(n: Node, s: Settings)
    decreases n, 2
  {
    && n.opType != "" && !(n.inputs == [] && n.outputs == [])
    && OperatorAllowed(n, s.imports, s.operators) && s.payloadOk(n, s.isMainGraph)
    && Unique(AttributeNames(n.attributes), {""})
    && AttributesWellFormed(n.attributes, s)
  }

  ghost predicate AttributesWellFormed(xs: seq<Attribute>, s: Settings)
    decreases xs, 0
  {
    xs == [] || (
      && (xs[0].g.Some? ==> GraphWellFormed(xs[0].g.value, s.Nested()))
      && GraphsWellFormed(xs[0].graphs, s.Nested())
      && AttributesWellFormed(xs[1..], s))
  }

  ghost predicate GraphsWellFormed(gs: seq<Graph>, s: Settings)
    decreases gs, 0
  {
    gs == [] || (GraphWellFormed(gs[0], s) && GraphsWellFormed(gs[1..], s))
  }

  // The naming rules without running sets: inputs are distinct, and so are initializers of all kinds together, none of
  // which is empty.
  lemma {:induction false} GraphNamesExactly(g: Graph, s: Settings)
    ensures GraphWellFormed(g, s) <==>
      && g.name != "" && s.graphOk(g, s.isMainGraph)
      && Distinct(InputNames(g)) && Distinct(InitializerNames(AllInitializers(g)))
      && "" !in InitializerNames(AllInitializers(g))
      && (s.irVersion <= 3 ==> forall x | x in InitializerNames(g.initializers) :: x in InputNames(g))
      && NodesWellFormed(g.nodes, s)
  {
    UniqueMeaning(InputNames(g), {});
    UniqueMeaning(InitializerNames(AllInitializers(g)), {""});
    var all, dense, inputs := InitializerNames(AllInitializers(g)), InitializerNames(g.initializers), InputNames(g);
    assert "" !in all <==> forall i | 0 <= i < |all| :: all[i] != "";
    assert Names(dense) <= Names(inputs) <==> forall x | x in dense :: x in inputs by {
      assert forall x :: x in Names(dense) <==> x in dense;
      assert forall x :: x in Names(inputs) <==> x in inputs;
    }
  }

  // A node has an operator, an input or an output, and attributes with distinct names, none of which is empty.
  lemma {:induction false} NodeNamesExactly(n: Node, s: Settings)
    ensures NodeWellFormed(n, s) <==>
      && n.opType != "" && (n.inputs != [] || n.outputs != [])
      && OperatorAllowed(n, s.imports, s.operators) && s.payloadOk(n, s.isMainGraph)
      && Distinct(AttributeNames(n.attributes)) && "" !in AttributeNames(n.attributes)
      && AttributesWellFormed(n.attributes, s)
  {
    UniqueMeaning(AttributeNames(n.attributes), {""});
  }

  ghost predicate FunctionAccepted(f: Function, s: Settings, outer: set<string>) {
    && f.name != "" && s.functionOk(f)
    && Unique(f.inputs, {}) && Unique(f.outputs, {}) && Unique(f.attributes, {})
    && NodesScoped(f.nodes, {}, outer, Names(f.inputs))
    && NodesWellFormed(f.nodes, s)
  }

  // ----- the operators at every depth -----

  lemma {:induction false} OperatorsAreAllowed(ns: seq<Node>, s: Settings)
    requires NodesWellFormed(ns, s)
    ensures forall n: Node | n in AllNodes(ns) :: OperatorAllowed(n, s.imports, s.operators)
    decreases ns, 0
  {
    if ns != [] {
      AttributeOperatorsAreAllowed(ns[0].attributes, s);
      OperatorsAreAllowed(ns[1..], s);
    }
  }

  lemma {:induction false} AttributeOperatorsAreAllowed(xs: seq<Attribute>, s: Settings)
    requires AttributesWellFormed(xs, s)
    ensures forall n: Node | n in AttributesNodes(xs) :: OperatorAllowed(n, s.imports, s.operators)
    decreases xs, 0
  {
    if xs != [] {
      if xs[0].g.Some? {
        OperatorsAreAllowed(xs[0].g.value.nodes, s.Nested());
      }
      GraphOperatorsAreAllowed(xs[0].graphs, s.Nested());
      AttributeOperatorsAreAllowed(xs[1..], s);
    }
  }

  lemma {:induction false} GraphOperatorsAreAllowed(gs: seq<Graph>, s: Settings)
    requires GraphsWellFormed(gs, s)
    ensures forall n: Node | n in GraphsNodes(gs) :: OperatorAllowed(n, s.imports, s.operators)
    decreases gs, 0
  {
    if gs != [] {
      OperatorsAreAllowed(gs[0].nodes, s);
      GraphOperatorsAreAllowed(gs[1..], s);
    }
  }

  // A function has distinct inputs, outputs and attributes, and its nodes read nothing from outside.
  lemma {:induction false} FunctionNamesExactly(f: Function, s: Settings, outer: set<string>)
    ensures FunctionAccepted(f, s, outer) <==>
      && f.name != "" && s.functionOk(f)
      && Distinct(f.inputs) && Distinct(f.outputs) && Distinct(f.attributes)
      && NodesScoped(f.nodes, {}, outer, Names(f.inputs)) && NodesWellFormed(f.nodes, s)
  {
    UniqueMeaning(f.inputs, {});
    UniqueMeaning(f.outputs, {});
    UniqueMeaning(f.attributes, {});
  }

  // ----- the mutable scopes -----

  class LexicalScopeContext {
    var names: set<string>
    const parent: LexicalScopeContext?
    ghost const ancestors: set<LexicalScopeContext>

    constructor (parent: LexicalScopeContext?)
      requires parent != null ==> parent.Valid()
      ensures Valid() && this.parent == parent && names == {}
    {
      this.parent := parent;
      this.ancestors := if parent == null then {} else {parent} + parent.ancestors;
      this.names := {};
    }

    // The chain of parents is finite and never changes.
    ghost predicate Valid()
      decreases ancestors
    {
      && this !in ancestors
      && (parent == null ==> ancestors == {})
      && (parent != null ==> ancestors == {parent} + parent.ancestors && parent !in parent.ancestors && parent.Valid())
    }

    // Names defined in an ancestor.
    ghost function Outer(): set<string>
      requires Valid()
      reads ancestors
      decreases ancestors
    {
      if parent == null then {} else parent.names + parent.Outer()
    }

    ghost function Visible(): set<string>
      requires Valid()
      reads this, ancestors
    {
      names + Outer()
    }

    method Add(name: string)
      requires Valid()
      modifies this
      ensures names == old(names) + {name} && Outer() == old(Outer())
    {
      names := names + {name};
    }

    predicate ThisGraphHas(name: string)
      reads this
    {
      name in names
    }

    predicate ThisOrAncestorGraphHas(name: string)
      requires Valid()
      reads this, ancestors
      ensures ThisOrAncestorGraphHas(name) <==> name in Visible()
      decreases ancestors
    {
      ThisGraphHas(name) || (parent != null && parent.ThisOrAncestorGraphHas(name))
    }
  }

  // ----- the checks, run on mutable scopes -----

  // The inputs of a node: each present one is visible (in a graph) or defined in this very scope (in a function).
  method CheckInputs(inputs: seq<string>, lex: LexicalScopeContext, ancestors: bool) returns (ok: bool)
    requires lex.Valid()
    ensures ok <==> Names(NonEmpty(inputs)) <= if ancestors then lex.Visible() else lex.names
  {
    ghost var readable := if ancestors then lex.Visible() else lex.names;
    for i := 0 to |inputs|
      invariant Names(NonEmpty(inputs)) <= readable <==> Names(NonEmpty(inputs[i..])) <= readable
    {
      assert inputs[i..][0] == inputs[i] && inputs[i..][1..] == inputs[i + 1..];
      if inputs[i] == "" {
        continue;
      }
      assert NonEmpty(inputs[i..]) == [inputs[i]] + NonEmpty(inputs[i + 1..]);
      if !(if ancestors then lex.ThisOrAncestorGraphHas(inputs[i]) else lex.ThisGraphHas(inputs[i])) {
        assert inputs[i] in NonEmpty(inputs[i..]) && inputs[i] !in readable;
        return false;
      }
    }
    assert inputs[|inputs|..] == [];
    ok := true;
  }

  // The outputs of a node: each present one is new, and is defined in this scope.
  method CheckOutputs(outputs: seq<string>, lex: LexicalScopeContext) returns (ok: bool)
    requires lex.Valid()
    modifies lex
    ensures lex.Outer() == old(lex.Outer())
    ensures ok <==> Unique(NonEmpty(outputs), old(lex.Visible()))
    ensures ok ==> lex.names == old(lex.names) + Names(NonEmpty(outputs))
  {
    for i := 0 to |outputs|
      invariant lex.Outer() == old(lex.Outer())
      invariant Unique(NonEmpty(outputs), old(lex.Visible())) <==> Unique(NonEmpty(outputs[i..]), lex.Visible())
      invariant lex.names + Names(NonEmpty(outputs[i..])) == old(lex.names) + Names(NonEmpty(outputs))
    {
      assert outputs[i..][0] == outputs[i] && outputs[i..][1..] == outputs[i + 1..];
      ghost var rest := NonEmpty(outputs[i + 1..]);
      if outputs[i] == "" {
        assert NonEmpty(outputs[i..]) == rest;
        continue;
      }
      assert NonEmpty(outputs[i..]) == [outputs[i]] + rest && ([outputs[i]] + rest)[1..] == rest;
      if lex.ThisOrAncestorGraphHas(outputs[i]) {
        return false;
      }
      ghost var before := lex.Visible();
      lex.Add(outputs[i]);
      assert lex.Visible() == before + {outputs[i]};
    }
    assert outputs[|outputs|..] == [];
    ok := true;
  }

  method CheckNode(n: Node, s: Settings, lex: LexicalScopeContext) returns (ok: bool)
    requires lex.Valid()
    ensures ok <==> NodeWellFormed(n, s) && AttributesScoped(n.attributes, lex.Visible())
    decreases n, 2
  {
    if n.opType == "" || (n.inputs == [] && n.outputs == []) {
      return false;
    }
    var version := FindImport(n.domain, s.imports);
    if version.None? || !s.payloadOk(n, s.isMainGraph) {
      return false;
    }
    var xs := n.attributes;
    var seen: set<string> := {""};
    for i := 0 to |xs|
      invariant Unique(AttributeNames(xs), {""}) <==> Unique(AttributeNames(xs[i..]), seen)
      invariant AttributesWellFormed(xs, s) <==> AttributesWellFormed(xs[i..], s)
      invariant AttributesScoped(xs, lex.Visible()) <==> AttributesScoped(xs[i..], lex.Visible())
    {
      assert xs[i..][0] == xs[i] && xs[i..][1..] == xs[i + 1..];
      assert AttributeNames(xs[i..])[1..] == AttributeNames(xs[i + 1..]);
      if xs[i].name in seen {
        return false;
      }
      seen := seen + {xs[i].name};
      var fine := CheckAttribute(xs[i], s, lex);
      if !fine {
        return false;
      }
    }
    assert xs[|xs|..] == [];
    ok := CheckOperator(n, s.imports, version.value, s.operators);
  }

  method CheckAttribute(a: Attribute, s: Settings, lex: LexicalScopeContext) returns (ok: bool)
    requires lex.Valid()
    ensures ok <==>
      && (a.g.Some? ==> GraphWellFormed(a.g.value, s.Nested()) && GraphScoped(a.g.value, lex.Visible()))
      && GraphsWellFormed(a.graphs, s.Nested()) && GraphsScoped(a.graphs, lex.Visible())
    decreases a, 2
  {
    if a.g.Some? {
      var fine := CheckGraph(a.g.value, s.Nested(), lex);
      if !fine {
        return false;
      }
    }
    var gs := a.graphs;
    for i := 0 to |gs|
      invariant GraphsWellFormed(gs, s.Nested()) <==> GraphsWellFormed(gs[i..], s.Nested())
      invariant GraphsScoped(gs, lex.Visible()) <==> GraphsScoped(gs[i..], lex.Visible())
    {
      assert gs[i..][0] == gs[i] && gs[i..][1..] == gs[i + 1..];
      var fine := CheckGraph(gs[i], s.Nested(), lex);
      if !fine {
        return false;
      }
    }
    assert gs[|gs|..] == [];
    ok := true;
  }

  // Adds initializer names to a fresh scope; `seen` is shared between the dense, sparse and extended initializers.
  method DeclareInitializers(inits: seq<Initializer>, seen: set<string>, lex: LexicalScopeContext, mustBeInput: bool)
    returns (ok: bool, seen': set<string>)
    requires lex.Valid()
    modifies lex
    ensures lex.Outer() == old(lex.Outer())
    ensures ok <==>
      && Unique(InitializerNames(inits), seen)
      && (mustBeInput ==> Names(InitializerNames(inits)) <= old(lex.names))
    ensures ok ==> lex.names == old(lex.names) + Names(InitializerNames(inits))
    ensures ok ==> seen' == seen + Names(InitializerNames(inits))
  {
    seen' := seen;
    ghost var names := InitializerNames(inits);
    for i := 0 to |inits|
      invariant lex.Outer() == old(lex.Outer())
      invariant Unique(names, seen) <==> Unique(names[i..], seen')
      invariant seen' == seen + Names(names[..i]) && lex.names == old(lex.names) + Names(names[..i])
      invariant mustBeInput ==> lex.names == old(lex.names)
    {
      assert names[i..][0] == inits[i].name && names[i..][1..] == names[i + 1..];
      assert names[..i + 1] == names[..i] + [inits[i].name];
      if inits[i].name in seen' {
        return false, seen';
      }
      seen' := seen' + {inits[i].name};
      if mustBeInput {
        if !lex.ThisGraphHas(inits[i].name) {
          assert inits[i].name in Names(names);
          return false, seen';
        }
      } else {
        lex.Add(inits[i].name);
      }
    }
    assert names[..|inits|] == names && names[|inits|..] == [];
    ok := true;
  }

  lemma {:induction false} UniqueConcat(a: seq<string>, b: seq<string>, seen: set<string>)
    ensures Unique(a + b, seen) <==> Unique(a, seen) && Unique(b, seen + Names(a))
  {
    if a == [] {
      assert a + b == b && seen + Names(a) == seen;
    } else {
      assert (a + b)[1..] == a[1..] + b;
      UniqueConcat(a[1..], b, seen + {a[0]});
      assert a == [a[0]] + a[1..];
      assert seen + {a[0]} + Names(a[1..]) == seen + Names(a);
    }
  }

  lemma {:induction false} InitializersSplit(g: Graph)
    ensures var a, b, c := InitializerNames(g.initializers), InitializerNames(g.sparseInitializers),
                InitializerNames(g.extendedInitializers);
      && InitializerNames(AllInitializers(g)) == a + b + c
      && Names(InitializerNames(AllInitializers(g))) == Names(a) + Names(b) + Names(c)
      && (Unique(InitializerNames(AllInitializers(g)), {""}) <==>
           Unique(a, {""}) && Unique(b, {""} + Names(a)) && Unique(c, {""} + Names(a) + Names(b)))
  {
    var a, b, c := InitializerNames(g.initializers), InitializerNames(g.sparseInitializers),
      InitializerNames(g.extendedInitializers);
    assert InitializerNames(AllInitializers(g)) == a + b + c;
    UniqueConcat(a + b, c, {""});
    UniqueConcat(a, b, {""});
    assert Names(a + b) == Names(a) + Names(b);
    assert {""} + (Names(a) + Names(b)) == {""} + Names(a) + Names(b);
  }

  // The inputs and initializers of a graph, declared in its fresh scope.
  method DeclareNames(g: Graph, s: Settings, lex: LexicalScopeContext) returns (ok: bool)
    requires lex.Valid() && lex.names == {}
    modifies lex
    ensures lex.Outer() == old(lex.Outer())
    ensures ok <==>
      && Unique(InputNames(g), {})
      && Unique(InitializerNames(AllInitializers(g)), {""})
      && (s.irVersion <= 3 ==> Names(InitializerNames(g.initializers)) <= Names(InputNames(g)))
    ensures ok ==> lex.names == Declared(g)
  {
    ok := DeclareInputs(InputNames(g), lex);
    if !ok {
      return;
    }
    InitializersSplit(g);
    var seen;
    ok, seen := DeclareInitializers(g.initializers, {""}, lex, s.irVersion <= 3);
    if !ok {
      return;
    }
    ok, seen := DeclareInitializers(g.sparseInitializers, seen, lex, false);
    if !ok {
      return;
    }
    ok, seen := DeclareInitializers(g.extendedInitializers, seen, lex, false);
  }

  method DeclareInputs(inputs: seq<string>, lex: LexicalScopeContext) returns (ok: bool)
    requires lex.Valid() && lex.names == {}
    modifies lex
    ensures lex.Outer() == old(lex.Outer())
    ensures ok <==> Unique(inputs, {})
    ensures ok ==> lex.names == Names(inputs)
  {
    for i := 0 to |inputs|
      invariant lex.Outer() == old(lex.Outer()) && lex.names == Names(inputs[..i])
      invariant Unique(inputs, {}) <==> Unique(inputs[i..], lex.names)
    {
      assert inputs[i..][0] == inputs[i] && inputs[i..][1..] == inputs[i + 1..];
      assert inputs[..i + 1] == inputs[..i] + [inputs[i]];
      if lex.ThisGraphHas(inputs[i]) {
        return false;
      }
      lex.Add(inputs[i]);
    }
    assert inputs[..|inputs|] == inputs && inputs[|inputs|..] == [];
    ok := true;
  }

  method CheckGraphOutputs(outputs: seq<ValueInfo>, lex: LexicalScopeContext) returns (ok: bool)
    ensures ok <==> OutputsDefined(outputs, lex.names)
  {
    for i := 0 to |outputs|
      invariant forall j | 0 <= j < i :: outputs[j].name in lex.names
    {
      if !lex.ThisGraphHas(outputs[i].name) {
        return false;
      }
    }
    ok := true;
  }

  // check_graph accepts exactly the graphs that are scoped in what the parent scope shows and well formed.
  method CheckGraph(g: Graph, s: Settings, parentLex: LexicalScopeContext) returns (ok: bool)
    requires parentLex.Valid()
    ensures ok <==> GraphWellFormed(g, s) && GraphScoped(g, parentLex.Visible())
    decreases g, 2
  {
    if g.name == "" || !s.graphOk(g, s.isMainGraph) {
      return false;
    }
    var lex := new LexicalScopeContext(parentLex);
    ghost var outer := parentLex.Visible();
    var fine := DeclareNames(g, s, lex);
    if !fine {
      return false;
    }
    fine := CheckNodes(g.nodes, s, lex, true);
    if !fine {
      return false;
    }
    ok := CheckGraphOutputs(g.outputs, lex);
  }

  // The loop over the nodes of a graph, whose inputs may come from ancestors, or of a function, whose inputs may not.
  method CheckNodes(ns: seq<Node>, s: Settings, lex: LexicalScopeContext, ancestors: bool) returns (ok: bool)
    requires lex.Valid()
    modifies lex
    ensures lex.Outer() == old(lex.Outer())
    ensures ok <==>
      && NodesWellFormed(ns, s)
      && NodesScoped(ns, if ancestors then old(lex.Outer()) else {}, old(lex.Outer()), old(lex.names))
    ensures ok ==> lex.names == old(lex.names) + OutputsOf(ns)
    decreases ns, 1
  {
    ghost var outer := lex.Outer();
    ghost var captured := if ancestors then outer else {};
    for i := 0 to |ns|
      invariant lex.Outer() == outer
      invariant NodesWellFormed(ns, s) <==> NodesWellFormed(ns[i..], s)
      invariant NodesScoped(ns, captured, outer, old(lex.names)) <==> NodesScoped(ns[i..], captured, outer, lex.names)
      invariant lex.names + OutputsOf(ns[i..]) == old(lex.names) + OutputsOf(ns)
    {
      assert ns[i..][0] == ns[i] && ns[i..][1..] == ns[i + 1..];
      var n := ns[i];
      assert lex.Visible() == outer + lex.names;
      var fine := CheckInputs(n.inputs, lex, ancestors);
      if !fine {
        return false;
      }
      fine := CheckNode(n, s, lex);
      if !fine {
        return false;
      }
      fine := CheckOutputs(n.outputs, lex);
      if !fine {
        return false;
      }
    }
    assert ns[|ns|..] == [];
    ok := true;
  }

  method CheckFunction(f: Function, s: Settings, parentLex: LexicalScopeContext) returns (ok: bool)
    requires parentLex.Valid()
    ensures ok <==> FunctionAccepted(f, s, parentLex.Visible())
  {
    if f.name == "" || !s.functionOk(f) {
      return false;
    }
    var lex := new LexicalScopeContext(parentLex);
    var fine := DeclareInputs(f.inputs, lex);
    if !fine {
      return false;
    }
    fine := CheckDistinct(f.outputs);
    if !fine {
      return false;
    }
    fine := CheckDistinct(f.attributes);
    if !fine {
      return false;
    }
    ok := CheckNodes(f.nodes, s, lex, false);
  }

  method CheckDistinct(names: seq<string>) returns (ok: bool)
    ensures ok <==> Unique(names, {})
  {
    var seen: set<string> := {};
    for i := 0 to |names|
      invariant Unique(names, {}) <==> Unique(names[i..], seen)
    {
      assert names[i..][0] == names[i] && names[i..][1..] == names[i + 1..];
      if names[i] in seen {
        return false;
      }
      seen := seen + {names[i]};
    }
    assert names[|names|..] == [];
    ok := true;
  }
}
