// What the scoping rules are for: as long as its operators are defined, evaluation in list order never gets stuck
// exactly for scoped graphs, and any two accepted orders of the same nodes compute the same values.

module Evaluation {
  import opened Basics
  import opened Onnx
  import opened Scopes

  // Ok, or Stuck on a name that is not defined or that would be bound a second time, or on an operator without a
  // result.
  datatype Result<T> = Ok(value: T) | Stuck

  // A subgraph as an operator sees it: its results for every list of arguments of the right length.
  type Body<!V(==)> = imap<seq<V>, seq<V>>

  // A deterministic meaning of the operators: whether a node has a result at all, and the value of its output port `p`,
  // given the values of its inputs (None for an absent one) and its subgraphs.
  datatype Interpretation<!V(==)> = Interpretation(
    constant: Initializer -> V,
    defined: Node -> bool,
    op: (Node, seq<Option<V>>, seq<Body<V>>, nat) -> V)

  type Env<V> = map<string, V>

  // ----- evaluation -----

  ghost function BindInitializers<V>(I: Interpretation<V>, inits: seq<Initializer>): (r: Env<V>)
    ensures r.Keys == Names(InitializerNames(inits))
  {
    if inits == [] then map[]
    else
      var n := |inits| - 1;
      assert InitializerNames(inits) == InitializerNames(inits[..n]) + [inits[n].name];
      BindInitializers(I, inits[..n])[inits[n].name := I.constant(inits[n])]
  }

  ghost function BindInputs<V>(names: seq<string>, args: seq<V>): (r: Env<V>)
    requires |names| == |args|
    ensures r.Keys == Names(names)
  {
    if names == [] then map[]
    else
      var n := |names| - 1;
      assert names == names[..n] + [names[n]];
      BindInputs(names[..n], args[..n])[names[n] := args[n]]
  }

  // Arguments override initializers of the same name.
  ghost function Initial<V>(I: Interpretation<V>, g: Graph, args: seq<V>): (r: Env<V>)
    requires |args| == |g.inputs|
    ensures r.Keys == Declared(g)
  {
    BindInitializers(I, AllInitializers(g)) + BindInputs(InputNames(g), args)
  }

  // The values of the inputs in order; an absent input, named "", reads as None.
  ghost function ReadInputs<V>(names: seq<string>, env: Env<V>): Result<seq<Option<V>>> {
    if names == [] then Ok([])
    else if names[0] != "" && names[0] !in env then Stuck
    else
      var rest := ReadInputs(names[1..], env);
      if rest.Stuck? then Stuck
      else Ok([if names[0] == "" then None else Some(env[names[0]])] + rest.value)
  }

  // Binds the present outputs one after the other, in the scope `local` nested in `outer`.
  ghost function BindOutputs<V>(names: seq<string>, values: seq<V>, outer: Env<V>, local: Env<V>): Result<Env<V>>
    requires |names| == |values|
  {
    if names == [] then Ok(local)
    else if names[0] == "" then BindOutputs(names[1..], values[1..], outer, local)
    else if names[0] in outer || names[0] in local then Stuck
    else BindOutputs(names[1..], values[1..], outer, local[names[0] := values[0]])
  }

  // A graph in the environment `outer`; its results are read from its own scope only.
  ghost function EvalGraph<V(!new)>(I: Interpretation<V>, g: Graph, outer: Env<V>, args: seq<V>): Result<seq<V>>
    requires |args| == |g.inputs|
    decreases g, 1
  {
    var final := EvalNodes(I, g.nodes, outer, Initial(I, g, args));
    if final.Stuck? then Stuck else ReadOutputs(g.outputs, final.value)
  }

  ghost function ReadOutputs<V>(outputs: seq<ValueInfo>, local: Env<V>): Result<seq<V>> {
    if outputs == [] then Ok([])
    else if outputs[0].name !in local then Stuck
    else
      var rest := ReadOutputs(outputs[1..], local);
      if rest.Stuck? then Stuck else Ok([local[outputs[0].name]] + rest.value)
  }

  // Nodes in list order, adding to `local`.
  ghost function EvalNodes<V(!new)>(I: Interpretation<V>, ns: seq<Node>, outer: Env<V>, local: Env<V>): Result<Env<V>>
    decreases ns, 0
  {
    if ns == [] then Ok(local)
    else
      var next := EvalNode(I, ns[0], outer, local);
      if next.Stuck? then Stuck else EvalNodes(I, ns[1..], outer, next.value)
  }

  ghost function EvalNode<V(!new)>(I: Interpretation<V>, n: Node, outer: Env<V>, local: Env<V>): Result<Env<V>>
    decreases n, 2
  {
    var ins := ReadInputs(n.inputs, outer + local);
    var bodies := EvalAttributes(I, n.attributes, outer + local);
    if ins.Stuck? || bodies.Stuck? || !I.defined(n) then Stuck
    else BindOutputs(n.outputs, Results(I, n, ins.value, bodies.value), outer, local)
  }

  // The values that a node gives to its outputs.
  ghost function Results<V>(I: Interpretation<V>, n: Node, ins: seq<Option<V>>, bodies: seq<Body<V>>): (values: seq<V>)
    ensures |values| == |n.outputs|
  {
    seq(|n.outputs|, p requires 0 <= p < |n.outputs| => I.op(n, ins, bodies, p))
  }

  // The subgraphs of a node, closed over `env`; Stuck when one of them would get stuck on some arguments.
  ghost function EvalAttributes<V(!new)>(I: Interpretation<V>, xs: seq<Attribute>, env: Env<V>): Result<seq<Body<V>>>
    decreases xs, 0
  {
    if xs == [] then Ok([])
    else
      var g := if xs[0].g.Some? then EvalBody(I, xs[0].g.value, env) else Ok([]);
      var graphs := EvalBodies(I, xs[0].graphs, env);
      var rest := EvalAttributes(I, xs[1..], env);
      if g.Stuck? || graphs.Stuck? || rest.Stuck? then Stuck else Ok(g.value + graphs.value + rest.value)
  }

  ghost function EvalBodies<V(!new)>(I: Interpretation<V>, gs: seq<Graph>, env: Env<V>): Result<seq<Body<V>>>
    decreases gs, 0
  {
    if gs == [] then Ok([])
    else
      var g := EvalBody(I, gs[0], env);
      var rest := EvalBodies(I, gs[1..], env);
      if g.Stuck? || rest.Stuck? then Stuck else Ok(g.value + rest.value)
  }

  ghost function EvalBody<V(!new)>(I: Interpretation<V>, g: Graph, env: Env<V>): Result<seq<Body<V>>>
    decreases g, 2
  {
    if exists args: seq<V> | |args| == |g.inputs| :: EvalGraph(I, g, env, args).Stuck? then Stuck
    else Ok([imap args: seq<V> | |args| == |g.inputs| :: EvalGraph(I, g, env, args).value])
  }

  // ----- what the pieces of evaluation are -----

  lemma {:induction false} InputsExactly<V>(names: seq<string>, env: Env<V>)
    requires ReadInputs(names, env).Ok?
    ensures |ReadInputs(names, env).value| == |names|
    ensures forall i | 0 <= i < |names| :: if names[i] == "" then ReadInputs(names, env).value[i] == None
      else names[i] in env && ReadInputs(names, env).value[i] == Some(env[names[i]])
  {
    if names != [] {
      InputsExactly(names[1..], env);
    }
  }

  lemma {:induction false} ResultsExactly<V>(outputs: seq<ValueInfo>, local: Env<V>)
    requires ReadOutputs(outputs, local).Ok?
    ensures |ReadOutputs(outputs, local).value| == |outputs|
    ensures forall i | 0 <= i < |outputs| ::
      outputs[i].name in local && ReadOutputs(outputs, local).value[i] == local[outputs[i].name]
  {
    if outputs != [] {
      ResultsExactly(outputs[1..], local);
    }
  }

  // Arguments are bound by position, and come before initializers.
  lemma {:induction false} ArgumentsExactly<V>(I: Interpretation<V>, g: Graph, args: seq<V>, i: int)
    requires |args| == |g.inputs| && 0 <= i < |args|
    requires forall j | i < j < |args| :: g.inputs[j].name != g.inputs[i].name
    ensures g.inputs[i].name in Initial(I, g, args) && Initial(I, g, args)[g.inputs[i].name] == args[i]
  {
    LastArgument(InputNames(g), args, i);
  }

  lemma {:induction false} LastArgument<V>(names: seq<string>, args: seq<V>, i: int)
    requires |names| == |args| && 0 <= i < |args| && forall j | i < j < |args| :: names[j] != names[i]
    ensures names[i] in BindInputs(names, args) && BindInputs(names, args)[names[i]] == args[i]
  {
    var n := |names| - 1;
    if i < n {
      LastArgument(names[..n], args[..n], i);
    }
  }

  // A name that is no input has the last initializer of that name.
  lemma {:induction false} ConstantsExactly<V>(I: Interpretation<V>, g: Graph, args: seq<V>, i: int)
    requires |args| == |g.inputs| && 0 <= i < |AllInitializers(g)|
    requires AllInitializers(g)[i].name !in InputNames(g)
    requires forall j | i < j < |AllInitializers(g)| :: AllInitializers(g)[j].name != AllInitializers(g)[i].name
    ensures AllInitializers(g)[i].name in Initial(I, g, args)
    ensures Initial(I, g, args)[AllInitializers(g)[i].name] == I.constant(AllInitializers(g)[i])
  {
    LastConstant(I, AllInitializers(g), i);
  }

  lemma {:induction false} LastConstant<V>(I: Interpretation<V>, inits: seq<Initializer>, i: int)
    requires 0 <= i < |inits| && forall j | i < j < |inits| :: inits[j].name != inits[i].name
    ensures inits[i].name in BindInitializers(I, inits)
    ensures BindInitializers(I, inits)[inits[i].name] == I.constant(inits[i])
  {
    var n := |inits| - 1;
    if i < n {
      LastConstant(I, inits[..n], i);
    }
  }

  // ----- evaluation gets stuck exactly where the scoping rules are broken or a node has no result -----

  ghost predicate DefinedOn<V>(I: Interpretation<V>, nodes: set<Node>) {
    forall n | n in nodes :: I.defined(n)
  }

  lemma {:induction false} ReadInputsOk<V>(names: seq<string>, env: Env<V>)
    ensures ReadInputs(names, env).Ok? <==> Names(NonEmpty(names)) <= env.Keys
  {
    if names != [] {
      var rest := NonEmpty(names[1..]);
      ReadInputsOk(names[1..], env);
      if names[0] == "" {
        assert NonEmpty(names) == rest;
      } else {
        assert NonEmpty(names) == [names[0]] + rest;
        assert Names(NonEmpty(names)) == {names[0]} + Names(rest);
      }
    }
  }

  lemma {:induction false} BindOutputsOk<V>(names: seq<string>, values: seq<V>, outer: Env<V>, local: Env<V>)
    requires |names| == |values|
    ensures var r := BindOutputs(names, values, outer, local);
      && (r.Ok? <==> Unique(NonEmpty(names), outer.Keys + local.Keys))
      && (r.Ok? ==> r.value.Keys == local.Keys + Names(NonEmpty(names)))
      && (r.Ok? ==> forall x | x in local :: r.value[x] == local[x])
  {
    if names != [] {
      var name, rest := names[0], NonEmpty(names[1..]);
      if name == "" {
        assert NonEmpty(names) == rest;
        BindOutputsOk(names[1..], values[1..], outer, local);
      } else {
        assert NonEmpty(names) == [name] + rest && ([name] + rest)[1..] == rest;
        assert Names(NonEmpty(names)) == {name} + Names(rest);
        var next := local[name := values[0]];
        assert outer.Keys + next.Keys == outer.Keys + local.Keys + {name};
        BindOutputsOk(names[1..], values[1..], outer, next);
      }
    }
  }

  lemma {:induction false} ReadOutputsOk<V>(outputs: seq<ValueInfo>, local: Env<V>)
    ensures ReadOutputs(outputs, local).Ok? <==> OutputsDefined(outputs, local.Keys)
  {
    if outputs != [] {
      ReadOutputsOk(outputs[1..], local);
      assert OutputsDefined(outputs, local.Keys) <==>
        outputs[0].name in local && OutputsDefined(outputs[1..], local.Keys);
    }
  }

  // For every interpretation and arguments: a graph whose operators are defined evaluates without reading an undefined
  // name or rebinding a visible one, at any depth, exactly when it is scoped.
  lemma {:induction false} ScopedGraphsNeverGetStuck<V(!new)>(I: Interpretation<V>, g: Graph, outer: Env<V>,
                                                              args: seq<V>)
    requires |args| == |g.inputs|
    ensures EvalGraph(I, g, outer, args).Ok? <==> GraphScoped(g, outer.Keys) && DefinedOn(I, AllNodes(g.nodes))
    decreases g, 1
  {
    var local := Initial(I, g, args);
    ScopedNodesNeverGetStuck(I, g.nodes, outer, local);
    var final := EvalNodes(I, g.nodes, outer, local);
    if final.Ok? {
      ReadOutputsOk(g.outputs, final.value);
    }
  }

  lemma {:induction false} ScopedNodesNeverGetStuck<V(!new)>(I: Interpretation<V>, ns: seq<Node>, outer: Env<V>,
                                                             local: Env<V>)
    ensures EvalNodes(I, ns, outer, local).Ok? <==>
      NodesScoped(ns, outer.Keys, outer.Keys, local.Keys) && DefinedOn(I, AllNodes(ns))
    ensures EvalNodes(I, ns, outer, local).Ok? ==>
      EvalNodes(I, ns, outer, local).value.Keys == local.Keys + OutputsOf(ns)
    decreases ns, 0
  {
    if ns != [] {
      ScopedNodeNeverGetsStuck(I, ns[0], outer, local);
      var next := EvalNode(I, ns[0], outer, local);
      if next.Ok? {
        ScopedNodesNeverGetStuck(I, ns[1..], outer, next.value);
      }
    }
  }

  lemma {:induction false} ScopedNodeNeverGetsStuck<V(!new)>(I: Interpretation<V>, n: Node, outer: Env<V>,
                                                             local: Env<V>)
    ensures var r := EvalNode(I, n, outer, local);
      && (r.Ok? <==>
           && NodeScoped(n, outer.Keys + local.Keys, outer.Keys + local.Keys)
           && I.defined(n) && DefinedOn(I, AttributesNodes(n.attributes)))
      && (r.Ok? ==> r.value.Keys == local.Keys + Names(NonEmpty(n.outputs)))
      && (r.Ok? ==> forall x | x in local :: r.value[x] == local[x])
    decreases n, 2
  {
    var env := outer + local;
    assert env.Keys == outer.Keys + local.Keys;
    ReadInputsOk(n.inputs, env);
    ScopedAttributesNeverGetStuck(I, n.attributes, env);
    var ins, bodies := ReadInputs(n.inputs, env), EvalAttributes(I, n.attributes, env);
    if ins.Ok? && bodies.Ok? {
      BindOutputsOk(n.outputs, Results(I, n, ins.value, bodies.value), outer, local);
    }
  }

  lemma {:induction false} ScopedAttributesNeverGetStuck<V(!new)>(I: Interpretation<V>, xs: seq<Attribute>, env: Env<V>)
    ensures EvalAttributes(I, xs, env).Ok? <==> AttributesScoped(xs, env.Keys) && DefinedOn(I, AttributesNodes(xs))
    decreases xs, 0
  {
    if xs != [] {
      if xs[0].g.Some? {
        ScopedBodyNeverGetsStuck(I, xs[0].g.value, env);
      }
      ScopedBodiesNeverGetStuck(I, xs[0].graphs, env);
      ScopedAttributesNeverGetStuck(I, xs[1..], env);
    }
  }

  lemma {:induction false} ScopedBodiesNeverGetStuck<V(!new)>(I: Interpretation<V>, gs: seq<Graph>, env: Env<V>)
    ensures EvalBodies(I, gs, env).Ok? <==> GraphsScoped(gs, env.Keys) && DefinedOn(I, GraphsNodes(gs))
    decreases gs, 0
  {
    if gs != [] {
      ScopedBodyNeverGetsStuck(I, gs[0], env);
      ScopedBodiesNeverGetStuck(I, gs[1..], env);
    }
  }

  lemma {:induction false} ScopedBodyNeverGetsStuck<V(!new)>(I: Interpretation<V>, g: Graph, env: Env<V>)
    ensures EvalBody(I, g, env).Ok? <==> GraphScoped(g, env.Keys) && DefinedOn(I, AllNodes(g.nodes))
    decreases g, 2
  {
    forall args: seq<V> | |args| == |g.inputs|
      ensures EvalGraph(I, g, env, args).Ok? <==> GraphScoped(g, env.Keys) && DefinedOn(I, AllNodes(g.nodes))
    {
      ScopedGraphsNeverGetStuck(I, g, env, args);
    }
    var some := I.constant(Initializer("", 0, [], 0));
    var args := seq(|g.inputs|, _ => some);
    assert |args| == |g.inputs|;
    assert EvalGraph(I, g, env, args).Ok? <==> GraphScoped(g, env.Keys) && DefinedOn(I, AllNodes(g.nodes));
  }

  lemma {:induction false} BoundValues<V>(names: seq<string>, values: seq<V>, outer: Env<V>, local: Env<V>, p: nat)
    requires |names| == |values| && BindOutputs(names, values, outer, local).Ok? && p < |names| && names[p] != ""
    ensures var r := BindOutputs(names, values, outer, local).value; names[p] in r && r[names[p]] == values[p]
  {
    if names[0] == "" {
      BoundValues(names[1..], values[1..], outer, local, p - 1);
    } else if p == 0 {
      BindOutputsOk(names[1..], values[1..], outer, local[names[0] := values[0]]);
    } else {
      BoundValues(names[1..], values[1..], outer, local[names[0] := values[0]], p - 1);
    }
  }

  // The values of an evaluated node are those of its operator.
  lemma {:induction false} NodeValues<V(!new)>(I: Interpretation<V>, n: Node, outer: Env<V>, local: Env<V>, p: nat)
    requires EvalNode(I, n, outer, local).Ok? && p < |n.outputs| && n.outputs[p] != ""
    ensures I.defined(n)
    ensures var ins, bodies := ReadInputs(n.inputs, outer + local), EvalAttributes(I, n.attributes, outer + local);
      && ins.Ok? && bodies.Ok? && n.outputs[p] in EvalNode(I, n, outer, local).value
      && EvalNode(I, n, outer, local).value[n.outputs[p]] == I.op(n, ins.value, bodies.value, p)
  {
    var ins, bodies := ReadInputs(n.inputs, outer + local), EvalAttributes(I, n.attributes, outer + local);
    BoundValues(n.outputs, Results(I, n, ins.value, bodies.value), outer, local, p);
  }

  // ----- what a node computes depends only on the values of the names it can see in both environments -----

  ghost predicate Agree<V>(a: Env<V>, b: Env<V>) {
    forall x | x in a && x in b :: a[x] == b[x]
  }

  lemma {:induction false} SameInputs<V>(names: seq<string>, a: Env<V>, b: Env<V>)
    requires Agree(a, b) && ReadInputs(names, a).Ok? && ReadInputs(names, b).Ok?
    ensures ReadInputs(names, a) == ReadInputs(names, b)
  {
    if names != [] {
      SameInputs(names[1..], a, b);
    }
  }

  lemma {:induction false} SameGraph<V(!new)>(I: Interpretation<V>, g: Graph, a: Env<V>, b: Env<V>, args: seq<V>)
    requires |args| == |g.inputs| && Agree(a, b)
    requires EvalGraph(I, g, a, args).Ok? && EvalGraph(I, g, b, args).Ok?
    ensures EvalGraph(I, g, a, args) == EvalGraph(I, g, b, args)
    decreases g, 1
  {
    SameNodes(I, g.nodes, a, b, Initial(I, g, args));
  }

  lemma {:induction false} SameNodes<V(!new)>(I: Interpretation<V>, ns: seq<Node>, a: Env<V>, b: Env<V>, local: Env<V>)
    requires Agree(a, b) && EvalNodes(I, ns, a, local).Ok? && EvalNodes(I, ns, b, local).Ok?
    ensures EvalNodes(I, ns, a, local) == EvalNodes(I, ns, b, local)
    decreases ns, 0
  {
    if ns != [] {
      SameNode(I, ns[0], a, local, b, local);
      ScopedNodeNeverGetsStuck(I, ns[0], a, local);
      ScopedNodeNeverGetsStuck(I, ns[0], b, local);
      var next := EvalNode(I, ns[0], a, local).value;
      assert next == EvalNode(I, ns[0], b, local).value;
      SameNodes(I, ns[1..], a, b, next);
    }
  }

  lemma {:induction false} SameOutputs<V>(names: seq<string>, values: seq<V>, a: Env<V>, la: Env<V>, b: Env<V>,
                                          lb: Env<V>)
    requires |names| == |values| && BindOutputs(names, values, a, la).Ok? && BindOutputs(names, values, b, lb).Ok?
    ensures var ra, rb := BindOutputs(names, values, a, la).value, BindOutputs(names, values, b, lb).value;
      forall x | x in NonEmpty(names) :: x in ra && x in rb && ra[x] == rb[x]
  {
    if names != [] {
      if names[0] == "" {
        assert NonEmpty(names) == NonEmpty(names[1..]);
        SameOutputs(names[1..], values[1..], a, la, b, lb);
      } else {
        assert NonEmpty(names) == [names[0]] + NonEmpty(names[1..]);
        var la', lb' := la[names[0] := values[0]], lb[names[0] := values[0]];
        SameOutputs(names[1..], values[1..], a, la', b, lb');
        BindOutputsOk(names[1..], values[1..], a, la');
        BindOutputsOk(names[1..], values[1..], b, lb');
      }
    }
  }

  lemma {:induction false} SameNode<V(!new)>(I: Interpretation<V>, n: Node, a: Env<V>, la: Env<V>, b: Env<V>,
                                             lb: Env<V>)
    requires Agree(a + la, b + lb) && EvalNode(I, n, a, la).Ok? && EvalNode(I, n, b, lb).Ok?
    ensures var ra, rb := EvalNode(I, n, a, la).value, EvalNode(I, n, b, lb).value;
      forall x | x in NonEmpty(n.outputs) :: x in ra && x in rb && ra[x] == rb[x]
    decreases n, 2
  {
    SameInputs(n.inputs, a + la, b + lb);
    SameAttributes(I, n.attributes, a + la, b + lb);
    var ins, bodies := ReadInputs(n.inputs, a + la).value, EvalAttributes(I, n.attributes, a + la).value;
    SameOutputs(n.outputs, Results(I, n, ins, bodies), a, la, b, lb);
  }

  lemma {:induction false} SameAttributes<V(!new)>(I: Interpretation<V>, xs: seq<Attribute>, a: Env<V>, b: Env<V>)
    requires Agree(a, b) && EvalAttributes(I, xs, a).Ok? && EvalAttributes(I, xs, b).Ok?
    ensures EvalAttributes(I, xs, a) == EvalAttributes(I, xs, b)
    decreases xs, 0
  {
    if xs != [] {
      if xs[0].g.Some? {
        SameBody(I, xs[0].g.value, a, b);
      }
      SameBodies(I, xs[0].graphs, a, b);
      SameAttributes(I, xs[1..], a, b);
    }
  }

  lemma {:induction false} SameBodies<V(!new)>(I: Interpretation<V>, gs: seq<Graph>, a: Env<V>, b: Env<V>)
    requires Agree(a, b) && EvalBodies(I, gs, a).Ok? && EvalBodies(I, gs, b).Ok?
    ensures EvalBodies(I, gs, a) == EvalBodies(I, gs, b)
    decreases gs, 0
  {
    if gs != [] {
      SameBody(I, gs[0], a, b);
      SameBodies(I, gs[1..], a, b);
    }
  }

  lemma {:induction false} SameBody<V(!new)>(I: Interpretation<V>, g: Graph, a: Env<V>, b: Env<V>)
    requires Agree(a, b) && EvalBody(I, g, a).Ok? && EvalBody(I, g, b).Ok?
    ensures EvalBody(I, g, a) == EvalBody(I, g, b)
    decreases g, 2
  {
    forall args: seq<V> | |args| == |g.inputs|
      ensures EvalGraph(I, g, a, args) == EvalGraph(I, g, b, args)
    {
      SameGraph(I, g, a, b, args);
    }
    var fa := imap args: seq<V> | |args| == |g.inputs| :: EvalGraph(I, g, a, args).value;
    var fb := imap args: seq<V> | |args| == |g.inputs| :: EvalGraph(I, g, b, args).value;
    assert fa == fb;
  }

  // ----- confluence -----

  lemma {:induction false} EvalConcat<V(!new)>(I: Interpretation<V>, ns: seq<Node>, ms: seq<Node>, outer: Env<V>,
                                               local: Env<V>)
    ensures EvalNodes(I, ns + ms, outer, local) ==
      if EvalNodes(I, ns, outer, local).Stuck? then Stuck
      else EvalNodes(I, ms, outer, EvalNodes(I, ns, outer, local).value)
  {
    if ns == [] {
      assert ns + ms == ms;
    } else {
      assert (ns + ms)[1..] == ns[1..] + ms;
      var next := EvalNode(I, ns[0], outer, local);
      if next.Ok? {
        EvalConcat(I, ns[1..], ms, outer, next.value);
      }
    }
  }

  // Evaluation only adds names, and none that the outer scope shows.
  lemma {:induction false} EvalGrows<V(!new)>(I: Interpretation<V>, ns: seq<Node>, outer: Env<V>, local: Env<V>)
    requires EvalNodes(I, ns, outer, local).Ok?
    ensures var r := EvalNodes(I, ns, outer, local).value;
      && (forall x | x in local :: x in r && r[x] == local[x])
      && (forall x | x in r && x !in local :: x !in outer)
  {
    if ns != [] {
      ScopedNodeNeverGetsStuck(I, ns[0], outer, local);
      UniqueMeaning(NonEmpty(ns[0].outputs), outer.Keys + local.Keys);
      EvalGrows(I, ns[1..], outer, EvalNode(I, ns[0], outer, local).value);
    }
  }

  // The state before node `k`.
  ghost function Before<V(!new)>(I: Interpretation<V>, ns: seq<Node>, outer: Env<V>, local: Env<V>,
                                 k: nat): Result<Env<V>>
    requires k <= |ns|
  {
    EvalNodes(I, ns[..k], outer, local)
  }

  lemma {:induction false} BeforeMeaning<V(!new)>(I: Interpretation<V>, ns: seq<Node>, outer: Env<V>, local: Env<V>,
                                                  k: nat)
    requires k < |ns| && EvalNodes(I, ns, outer, local).Ok?
    ensures Before(I, ns, outer, local, k).Ok?
    ensures var s := Before(I, ns, outer, local, k).value;
      && EvalNode(I, ns[k], outer, s).Ok? && Before(I, ns, outer, local, k + 1) == EvalNode(I, ns[k], outer, s)
      && (forall x | x in local :: x in s && s[x] == local[x])
      && (forall x | x in s && x !in local :: x !in outer)
    ensures forall x | x in Before(I, ns, outer, local, k + 1).value ::
      x in EvalNodes(I, ns, outer, local).value &&
      EvalNodes(I, ns, outer, local).value[x] == Before(I, ns, outer, local, k + 1).value[x]
  {
    assert ns == ns[..k] + ns[k..];
    EvalConcat(I, ns[..k], ns[k..], outer, local);
    EvalGrows(I, ns[..k], outer, local);
    var s := Before(I, ns, outer, local, k).value;
    assert ns[k..] == [ns[k]] + ns[k + 1..];
    EvalConcat(I, [ns[k]], ns[k + 1..], outer, s);
    assert ns[..k + 1] == ns[..k] + [ns[k]];
    EvalConcat(I, ns[..k], [ns[k]], outer, local);
    EvalGrows(I, ns[k + 1..], outer, EvalNode(I, ns[k], outer, s).value);
  }

  // Everything that one order has computed before node `k`, the other order computes in the end.
  lemma {:induction false} OrdersAgree<V(!new)>(I: Interpretation<V>, ns: seq<Node>, ms: seq<Node>, outer: Env<V>,
                                                local: Env<V>, k: nat)
    requires k <= |ns| && forall n | n in ns :: n in ms
    requires EvalNodes(I, ns, outer, local).Ok? && EvalNodes(I, ms, outer, local).Ok?
    ensures Before(I, ns, outer, local, k).Ok?
    ensures var s, r := Before(I, ns, outer, local, k).value, EvalNodes(I, ms, outer, local).value;
      forall x | x in s :: x in r && r[x] == s[x]
  {
    var r := EvalNodes(I, ms, outer, local).value;
    if k == 0 {
      EvalGrows(I, ms, outer, local);
    } else {
      OrdersAgree(I, ns, ms, outer, local, k - 1);
      BeforeMeaning(I, ns, outer, local, k - 1);
      var n := ns[k - 1];
      assert n in ns;
      var j :| 0 <= j < |ms| && ms[j] == n;
      BeforeMeaning(I, ms, outer, local, j);
      var s, t := Before(I, ns, outer, local, k - 1).value, Before(I, ms, outer, local, j).value;
      ScopedNodeNeverGetsStuck(I, n, outer, s);
      assert Agree(outer + s, outer + t) by {
        ScopedNodeNeverGetsStuck(I, n, outer, t);
      }
      SameNode(I, n, outer, s, outer, t);
    }
  }

  lemma {:induction false} FinishedOrdersAgree<V(!new)>(I: Interpretation<V>, ns: seq<Node>, ms: seq<Node>,
                                                        outer: Env<V>, local: Env<V>)
    requires forall n :: n in ns <==> n in ms
    requires EvalNodes(I, ns, outer, local).Ok? && EvalNodes(I, ms, outer, local).Ok?
    ensures EvalNodes(I, ns, outer, local) == EvalNodes(I, ms, outer, local)
  {
    OrdersAgree(I, ns, ms, outer, local, |ns|);
    OrdersAgree(I, ms, ns, outer, local, |ms|);
    assert ns[..|ns|] == ns && ms[..|ms|] == ms;
    assert EvalNodes(I, ns, outer, local).value == EvalNodes(I, ms, outer, local).value;
  }

  lemma {:induction false} SameNodesInside(ns: seq<Node>, ms: seq<Node>)
    requires forall n | n in ns :: n in ms
    ensures AllNodes(ns) <= AllNodes(ms)
  {
    forall n | n in ns ensures {n} + AttributesNodes(n.attributes) <= AllNodes(ms) {
      NodeInside(n, ms);
    }
    CoveredNodes(ns, AllNodes(ms));
  }

  lemma {:induction false} NodeInside(n: Node, ns: seq<Node>)
    requires n in ns
    ensures {n} + AttributesNodes(n.attributes) <= AllNodes(ns)
  {
    if n != ns[0] {
      NodeInside(n, ns[1..]);
    }
  }

  lemma {:induction false} CoveredNodes(ns: seq<Node>, nodes: set<Node>)
    requires forall n | n in ns :: {n} + AttributesNodes(n.attributes) <= nodes
    ensures AllNodes(ns) <= nodes
  {
    if ns != [] {
      assert ns[0] in ns;
      CoveredNodes(ns[1..], nodes);
    }
  }

  // Two accepted orders of the same nodes leave the same value under every name, for every interpretation; if a node
  // has
  // no result, neither order does.
  lemma {:induction false} Confluence<V(!new)>(I: Interpretation<V>, ns: seq<Node>, ms: seq<Node>, outer: Env<V>,
                                               local: Env<V>)
    requires forall n :: n in ns <==> n in ms
    requires NodesScoped(ns, outer.Keys, outer.Keys, local.Keys) && NodesScoped(ms, outer.Keys, outer.Keys, local.Keys)
    ensures EvalNodes(I, ns, outer, local).Ok? <==> DefinedOn(I, AllNodes(ns))
    ensures EvalNodes(I, ns, outer, local) == EvalNodes(I, ms, outer, local)
  {
    ScopedNodesNeverGetStuck(I, ns, outer, local);
    ScopedNodesNeverGetStuck(I, ms, outer, local);
    SameNodesInside(ns, ms);
    SameNodesInside(ms, ns);
    if DefinedOn(I, AllNodes(ns)) {
      FinishedOrdersAgree(I, ns, ms, outer, local);
    }
  }

  // Reordering the nodes of a graph does not change its results as long as both orders are accepted.
  lemma {:induction false} ReorderedGraphsAreEqual<V(!new)>(I: Interpretation<V>, g: Graph, ms: seq<Node>,
                                                            outer: Env<V>, args: seq<V>)
    requires |args| == |g.inputs| && forall n :: n in g.nodes <==> n in ms
    requires GraphScoped(g, outer.Keys) && GraphScoped(g.(nodes := ms), outer.Keys)
    ensures EvalGraph(I, g, outer, args).Ok? <==> DefinedOn(I, AllNodes(g.nodes))
    ensures EvalGraph(I, g.(nodes := ms), outer, args) == EvalGraph(I, g, outer, args)
  {
    ScopedGraphsNeverGetStuck(I, g, outer, args);
    assert Declared(g.(nodes := ms)) == Declared(g);
    assert Initial(I, g.(nodes := ms), args) == Initial(I, g, args);
    Confluence(I, g.nodes, ms, outer, Initial(I, g, args));
  }
}
