// Evaluation with the calls of local functions unfolded into the bodies: it ends because ranks fall along calls, and
// gets stuck exactly where a call takes more than the function body gives. Parameters are bound as by the inliner
// (onnx_lib/inliner/inliner.cc): by position, no more than the function declares, and those not given are absent.

module CallUnfolding {
  import opened Basics
  import opened Onnx
  import opened Opsets
  import opened FunctionCycles
  import opened CallGraphs
  import opened Scopes
  import opened Binding
  import opened BindingSafety
  import opened Evaluation

  // What a name stands for: a value, or None for the parameter of a function that the call does not give.
  type Value<V> = Option<V>

  // What a node reads, and what its run leaves behind.
  type Inputs<V> = seq<Option<Value<V>>>
  type Outcome<V> = Result<Env<Value<V>>>

  type Graphs<!V(==)> = seq<Body<Value<V>>>

  // A call in progress, with the graphs that it passes as attributes.
  datatype Call<!V(==)> = Call(node: Node, bodies: Graphs<V>)

  // A meaning of the operators only: local functions mean what their bodies say. Operators in a body see the calls in
  // progress, and so the attributes that they refer to.
  datatype Semantics<!V(==)> = Semantics(
    constant: Initializer -> V,
    op: (seq<Call<V>>, Node, seq<Option<V>>, Graphs<V>, nat) -> V)

  function Present<V>(x: Option<Value<V>>): Option<V> {
    if x.Some? then x.value else None
  }

  function AllPresent<V>(ins: Inputs<V>): seq<Option<V>> {
    seq(|ins|, i requires 0 <= i < |ins| => Present(ins[i]))
  }

  // The arguments of a function: an input that the call does not give is absent.
  function Arguments<V>(ins: Inputs<V>, count: nat): (args: seq<Value<V>>)
    ensures |args| == count
  {
    seq(count, i requires 0 <= i < count => if i < |ins| then Present(ins[i]) else None)
  }

  function Callee(n: Node, c: Context): (k: nat)
    requires CalleeId(n) in c.Keys()
    ensures k < |c.functions|
  {
    PositionsMeaning(Ids(c.functions));
    c.Keys()[CalleeId(n)]
  }

  function OwnImports(c: Context, k: nat): Imports
    requires k < |c.functions| && InRange(c.functions[k])
  {
    ImportsOf(c.functions[k].opsetImports, true).value
  }

  // ----- the unfolded meaning of a node -----

  // What nodes mean where `imports` are in force and calls go below rank `r`.
  ghost function Unfold<V(!new)>(S: Semantics<V>, c: Context, order: seq<Func>, r: nat, imports: Imports,
                                 calls: seq<Call<V>>): Interpretation<Value<V>>
    requires VersionsInRange(c.functions)
    decreases r, 0
  {
    Interpretation(
      init => Some(S.constant(init)),
      n => c.IsLocalCall(n, imports) ==>
        Rank(order, Callee(n, c)) < r && CallReturns(S, c, order, Callee(n, c), n, calls),
      (n, ins, bodies, p) =>
        if c.IsLocalCall(n, imports) then
          if Rank(order, Callee(n, c)) < r then
            Output(c, Callee(n, c), p, Run(S, c, order, Callee(n, c), calls + [Call(n, bodies)],
                                           Arguments(ins, |c.functions[Callee(n, c)].inputs|)))
          else None
        else Some(S.op(calls, n, AllPresent(ins), bodies, p)))
  }

  // The body of function `k`, in an environment of its own.
  ghost function Run<V(!new)>(S: Semantics<V>, c: Context, order: seq<Func>, k: nat, calls: seq<Call<V>>,
                              args: seq<Value<V>>): Outcome<V>
    requires VersionsInRange(c.functions) && k < |c.functions| && |args| == |c.functions[k].inputs|
    decreases Rank(order, k), 1
  {
    EvalNodes(Unfold(S, c, order, Rank(order, k), OwnImports(c, k), calls), c.functions[k].nodes, map[],
              BindInputs(c.functions[k].inputs, args))
  }

  ghost function Output<V>(c: Context, k: nat, p: nat, run: Outcome<V>): Option<V>
    requires k < |c.functions|
  {
    var outputs := c.functions[k].outputs;
    if run.Ok? && p < |outputs| && outputs[p] in run.value then run.value[outputs[p]] else None
  }

  // No more inputs and outputs than the function declares.
  predicate FitsSignature(n: Node, f: Function) {
    |n.inputs| <= |f.inputs| && |n.outputs| <= |f.outputs|
  }

  // Every output that the call takes is among the names.
  predicate Takes(n: Node, f: Function, names: set<string>) {
    forall p | 0 <= p < |n.outputs| && p < |f.outputs| && n.outputs[p] != "" :: f.outputs[p] in names
  }

  // Whatever the arguments and the graphs that are passed, the body runs to its end and defines what the call takes.
  ghost predicate CallReturns<V(!new)>(S: Semantics<V>, c: Context, order: seq<Func>, k: nat, n: Node,
                                       calls: seq<Call<V>>)
    requires VersionsInRange(c.functions) && k < |c.functions|
    decreases Rank(order, k), 3
  {
    && FitsSignature(n, c.functions[k])
    && forall bodies, args: seq<Value<V>> | |args| == |c.functions[k].inputs| ::
         RunReturns(S, c, order, k, n, calls + [Call(n, bodies)], args)
  }

  ghost predicate RunReturns<V(!new)>(S: Semantics<V>, c: Context, order: seq<Func>, k: nat, n: Node,
                                      calls: seq<Call<V>>, args: seq<Value<V>>)
    requires VersionsInRange(c.functions) && k < |c.functions| && |args| == |c.functions[k].inputs|
    decreases Rank(order, k), 2
  {
    var run := Run(S, c, order, k, calls, args);
    run.Ok? && Takes(n, c.functions[k], run.value.Keys)
  }

  // ----- when a call returns -----

  function Produced(f: Function): set<string> {
    Names(f.inputs) + OutputsOf(f.nodes)
  }

  // The call fits the signature and takes only outputs that the body produces, and so do the calls inside the body.
  ghost predicate Sound(c: Context, order: seq<Func>, r: nat, imports: Imports, n: Node)
    requires VersionsInRange(c.functions)
    decreases r, 0
  {
    c.IsLocalCall(n, imports) ==>
      Rank(order, Callee(n, c)) < r && Supplied(n, c.functions[Callee(n, c)]) && BodySound(c, order, Callee(n, c))
  }

  ghost predicate BodySound(c: Context, order: seq<Func>, k: nat)
    requires VersionsInRange(c.functions) && k < |c.functions|
    decreases Rank(order, k), 1
  {
    forall n | n in AllNodes(c.functions[k].nodes) :: Sound(c, order, Rank(order, k), OwnImports(c, k), n)
  }

  predicate Supplied(n: Node, f: Function) {
    FitsSignature(n, f) && Takes(n, f, Produced(f))
  }

  // A call is supplied if it has no more inputs and outputs than the function declares, and each output that it takes
  // is an input of the function or an output of some node of its body.
  lemma {:induction false} SuppliedExactly(n: Node, f: Function)
    ensures Supplied(n, f) <==>
      && |n.inputs| <= |f.inputs| && |n.outputs| <= |f.outputs|
      && forall p | 0 <= p < |n.outputs| && n.outputs[p] != "" ::
           f.outputs[p] in f.inputs || (f.outputs[p] != "" && exists m :: m in f.nodes && f.outputs[p] in m.outputs)
  {
    forall x ensures x in Produced(f) <==> x in f.inputs || (x != "" && exists m :: m in f.nodes && x in m.outputs) {
      OutputsExactly(f.nodes, x);
    }
  }

  ghost predicate BodiesScoped(functions: seq<Function>) {
    forall k: nat | k < |functions| :: NodesScoped(functions[k].nodes, {}, {}, Names(functions[k].inputs))
  }

  // What the two sides mean, one level down.
  lemma {:induction false} DefinedMeaning<V(!new)>(S: Semantics<V>, c: Context, order: seq<Func>, r: nat,
                                                   imports: Imports, calls: seq<Call<V>>, n: Node)
    requires VersionsInRange(c.functions)
    ensures Unfold(S, c, order, r, imports, calls).defined(n) <==>
      (c.IsLocalCall(n, imports) ==>
        Rank(order, Callee(n, c)) < r && CallReturns(S, c, order, Callee(n, c), n, calls))
  {
  }

  // A body runs to its end exactly when its calls are sound, and then it has defined what it produces.
  lemma {:induction false} BodyRuns<V(!new)>(S: Semantics<V>, c: Context, order: seq<Func>, k: nat,
                                             calls: seq<Call<V>>, args: seq<Value<V>>)
    requires VersionsInRange(c.functions) && BodiesScoped(c.functions)
    requires k < |c.functions| && |args| == |c.functions[k].inputs|
    ensures Run(S, c, order, k, calls, args).Ok? <==> BodySound(c, order, k)
    ensures Run(S, c, order, k, calls, args).Ok? ==>
      Run(S, c, order, k, calls, args).value.Keys == Produced(c.functions[k])
    decreases Rank(order, k), 1
  {
    var f, r := c.functions[k], Rank(order, k);
    var I := Unfold(S, c, order, r, OwnImports(c, k), calls);
    forall n | n in AllNodes(f.nodes) ensures I.defined(n) <==> Sound(c, order, r, OwnImports(c, k), n) {
      DefinedExactly(S, c, order, r, OwnImports(c, k), calls, n);
    }
    var empty: Env<Value<V>> := map[];
    assert empty.Keys == {};
    ScopedNodesNeverGetStuck(I, f.nodes, empty, BindInputs(f.inputs, args));
  }

  // The unfolded meaning of a node is defined exactly when the node is sound.
  lemma {:induction false} DefinedExactly<V(!new)>(S: Semantics<V>, c: Context, order: seq<Func>, r: nat,
                                                   imports: Imports, calls: seq<Call<V>>, n: Node)
    requires VersionsInRange(c.functions) && BodiesScoped(c.functions)
    ensures Unfold(S, c, order, r, imports, calls).defined(n) <==> Sound(c, order, r, imports, n)
    decreases r, 0
  {
    DefinedMeaning(S, c, order, r, imports, calls, n);
    if c.IsLocalCall(n, imports) && Rank(order, Callee(n, c)) < r {
      ReturnsExactly(S, c, order, Callee(n, c), calls, n);
    }
  }

  lemma {:induction false} ReturnsExactly<V(!new)>(S: Semantics<V>, c: Context, order: seq<Func>, k: nat,
                                                   calls: seq<Call<V>>, n: Node)
    requires VersionsInRange(c.functions) && BodiesScoped(c.functions) && k < |c.functions|
    ensures CallReturns(S, c, order, k, n, calls) <==> Supplied(n, c.functions[k]) && BodySound(c, order, k)
    decreases Rank(order, k), 2
  {
    var f := c.functions[k];
    forall bodies, args: seq<Value<V>> | |args| == |f.inputs|
      ensures RunReturns(S, c, order, k, n, calls + [Call(n, bodies)], args) <==>
        BodySound(c, order, k) && Takes(n, f, Produced(f))
    {
      BodyRuns(S, c, order, k, calls + [Call(n, bodies)], args);
    }
    var absent: seq<Value<V>> := seq(|f.inputs|, _ => None);
    assert RunReturns(S, c, order, k, n, calls + [Call(n, [])], absent) <==>
      BodySound(c, order, k) && Takes(n, f, Produced(f));
  }

  // ----- the same without ranks -----

  lemma {:induction false} CallsInside(ns: seq<Node>, site: Site)
    ensures forall n | n in AllNodes(ns) :: Calls(n, site) <= NodesCallees(ns, site)
    decreases ns, 0
  {
    if ns != [] {
      AttributeCallsInside(ns[0].attributes, site);
      CallsInside(ns[1..], site);
    }
  }

  lemma {:induction false} AttributeCallsInside(xs: seq<Attribute>, site: Site)
    ensures forall n | n in AttributesNodes(xs) :: Calls(n, site) <= AttributesCallees(xs, site)
    decreases xs, 0
  {
    if xs != [] {
      if xs[0].g.Some? {
        CallsInside(xs[0].g.value.nodes, site);
      }
      GraphCallsInside(xs[0].graphs, site);
      AttributeCallsInside(xs[1..], site);
    }
  }

  lemma {:induction false} GraphCallsInside(gs: seq<Graph>, site: Site)
    ensures forall n | n in GraphsNodes(gs) :: Calls(n, site) <= GraphsCallees(gs, site)
    decreases gs, 0
  {
    if gs != [] {
      CallsInside(gs[0].nodes, site);
      GraphCallsInside(gs[1..], site);
    }
  }

  lemma {:induction false} RanksFall(c: Context, order: seq<Func>, k: nat, n: Node)
    requires Ranked(c, order) && k < |c.functions| && n in AllNodes(c.functions[k].nodes)
    requires c.IsLocalCall(n, OwnImports(c, k))
    ensures Rank(order, Callee(n, c)) < Rank(order, k)
  {
    var site := SiteOf(c.functions, c.registry, k);
    CallsInside(c.functions[k].nodes, site);
    assert Callee(n, c) in Calls(n, site);
    RankDecreases(CallGraphOf(c.functions, c.registry), order, k, Callee(n, c));
  }

  // Every call in the nodes goes to one of the functions and is supplied.
  ghost predicate SuppliedBy(c: Context, imports: Imports, ns: seq<Node>, called: set<Func>) {
    forall n | n in AllNodes(ns) && c.IsLocalCall(n, imports) ::
      Callee(n, c) in called && Supplied(n, c.functions[Callee(n, c)])
  }

  // So is every call in the bodies of those functions.
  ghost predicate AllSupplied(c: Context, imports: Imports, ns: seq<Node>, called: set<Func>)
    requires VersionsInRange(c.functions)
  {
    && SuppliedBy(c, imports, ns, called)
    && forall k | k in called ::
         k < |c.functions| && SuppliedBy(c, OwnImports(c, k), c.functions[k].nodes, called)
  }

  lemma {:induction false} SuppliedBodiesAreSound(c: Context, order: seq<Func>, imports: Imports, ns: seq<Node>,
                                                  called: set<Func>, k: nat)
    requires Ranked(c, order) && AllSupplied(c, imports, ns, called) && k in called
    ensures k < |c.functions| && BodySound(c, order, k)
    decreases Rank(order, k)
  {
    forall n | n in AllNodes(c.functions[k].nodes) ensures Sound(c, order, Rank(order, k), OwnImports(c, k), n) {
      if c.IsLocalCall(n, OwnImports(c, k)) {
        RanksFall(c, order, k, n);
        SuppliedBodiesAreSound(c, order, imports, ns, called, Callee(n, c));
      }
    }
  }

  ghost predicate NodesSound(c: Context, order: seq<Func>, imports: Imports, ns: seq<Node>)
    requires VersionsInRange(c.functions)
  {
    forall n | n in AllNodes(ns) :: Sound(c, order, |order|, imports, n)
  }

  // The nodes are sound exactly when some set of functions holds everything they call, directly or through its members,
  // and all of these calls are supplied.
  lemma {:induction false} SoundExactly(c: Context, order: seq<Func>, imports: Imports, ns: seq<Node>)
    requires Ranked(c, order)
    ensures NodesSound(c, order, imports, ns) <==> exists called :: AllSupplied(c, imports, ns, called)
  {
    if NodesSound(c, order, imports, ns) {
      SoundFunctionsSupply(c, order, imports, ns);
    }
    if called :| AllSupplied(c, imports, ns, called) {
      forall n | n in AllNodes(ns) ensures Sound(c, order, |order|, imports, n) {
        if c.IsLocalCall(n, imports) {
          SuppliedBodiesAreSound(c, order, imports, ns, called, Callee(n, c));
        }
      }
    }
  }

  lemma {:induction false} SoundFunctionsSupply(c: Context, order: seq<Func>, imports: Imports, ns: seq<Node>)
    requires Ranked(c, order) && NodesSound(c, order, imports, ns)
    ensures AllSupplied(c, imports, ns, set k: nat | k < |c.functions| && BodySound(c, order, k))
  {
    var called := set k: nat | k < |c.functions| && BodySound(c, order, k);
    forall k | k in called ensures SuppliedBy(c, OwnImports(c, k), c.functions[k].nodes, called) {
      assert BodySound(c, order, k);
    }
  }

  // A scoped graph with calls unfolded never gets stuck, exactly when all calls it leads to are supplied.
  lemma {:induction false} UnfoldedGraphsNeverGetStuck<V(!new)>(S: Semantics<V>, c: Context, order: seq<Func>,
                                                                imports: Imports, g: Graph, args: seq<Value<V>>)
    requires Ranked(c, order) && BodiesScoped(c.functions) && GraphScoped(g, {}) && |args| == |g.inputs|
    ensures EvalGraph(Unfold(S, c, order, |order|, imports, []), g, map[], args).Ok? <==>
      exists called :: AllSupplied(c, imports, g.nodes, called)
  {
    var I := Unfold(S, c, order, |order|, imports, []);
    forall n | n in AllNodes(g.nodes) ensures I.defined(n) <==> Sound(c, order, |order|, imports, n) {
      DefinedExactly(S, c, order, |order|, imports, [], n);
    }
    SoundExactly(c, order, imports, g.nodes);
    var empty: Env<Value<V>> := map[];
    assert empty.Keys == {};
    ScopedGraphsNeverGetStuck(I, g, empty, args);
  }

  // ----- what a call gives -----

  // The run of the body that a call stands for.
  ghost function CallRun<V(!new)>(S: Semantics<V>, c: Context, order: seq<Func>, calls: seq<Call<V>>, n: Node,
                                  ins: Inputs<V>, bodies: Graphs<V>): Outcome<V>
    requires VersionsInRange(c.functions) && CalleeId(n) in c.Keys()
  {
    Run(S, c, order, Callee(n, c), calls + [Call(n, bodies)],
        Arguments(ins, |c.functions[Callee(n, c)].inputs|))
  }

  lemma {:induction false} CallMeaning<V(!new)>(S: Semantics<V>, c: Context, order: seq<Func>, r: nat, imports: Imports,
                                                calls: seq<Call<V>>, n: Node, ins: Inputs<V>,
                                                bodies: Graphs<V>, p: nat)
    requires VersionsInRange(c.functions) && c.IsLocalCall(n, imports) && Rank(order, Callee(n, c)) < r
    ensures Unfold(S, c, order, r, imports, calls).op(n, ins, bodies, p) ==
      Output(c, Callee(n, c), p, CallRun(S, c, order, calls, n, ins, bodies))
  {
  }

  // Where a call has a result, its run has ended and defines the outputs that the call takes.
  lemma {:induction false} CallRunEnds<V(!new)>(S: Semantics<V>, c: Context, order: seq<Func>, r: nat, imports: Imports,
                                                calls: seq<Call<V>>, n: Node, ins: Inputs<V>,
                                                bodies: Graphs<V>, p: nat)
    requires VersionsInRange(c.functions) && c.IsLocalCall(n, imports)
    requires Unfold(S, c, order, r, imports, calls).defined(n) && p < |n.outputs| && n.outputs[p] != ""
    ensures Rank(order, Callee(n, c)) < r && p < |c.functions[Callee(n, c)].outputs|
    ensures CallRun(S, c, order, calls, n, ins, bodies).Ok?
    ensures c.functions[Callee(n, c)].outputs[p] in CallRun(S, c, order, calls, n, ins, bodies).value
  {
    DefinedMeaning(S, c, order, r, imports, calls, n);
    assert RunReturns(S, c, order, Callee(n, c), n, calls + [Call(n, bodies)],
                      Arguments(ins, |c.functions[Callee(n, c)].inputs|));
  }

  // A call gives its outputs the values that the body, run on the inputs and graphs of the call, gives to the outputs
  // of the function at the same places.
  lemma {:induction false} CallsYieldBodyValues<V(!new)>(S: Semantics<V>, c: Context, order: seq<Func>, r: nat,
                                                         imports: Imports, calls: seq<Call<V>>, n: Node,
                                                         outer: Env<Value<V>>, local: Env<Value<V>>, p: nat)
    requires VersionsInRange(c.functions) && c.IsLocalCall(n, imports)
    requires EvalNode(Unfold(S, c, order, r, imports, calls), n, outer, local).Ok?
    requires p < |n.outputs| && n.outputs[p] != ""
    ensures var I, f := Unfold(S, c, order, r, imports, calls), c.functions[Callee(n, c)];
      var ins, bodies := ReadInputs(n.inputs, outer + local), EvalAttributes(I, n.attributes, outer + local);
      && ins.Ok? && bodies.Ok? && p < |f.outputs|
      && var run := CallRun(S, c, order, calls, n, ins.value, bodies.value);
      && run.Ok? && f.outputs[p] in run.value && n.outputs[p] in EvalNode(I, n, outer, local).value
      && EvalNode(I, n, outer, local).value[n.outputs[p]] == run.value[f.outputs[p]]
  {
    var I := Unfold(S, c, order, r, imports, calls);
    NodeValues(I, n, outer, local, p);
    var ins := ReadInputs(n.inputs, outer + local).value;
    var bodies := EvalAttributes(I, n.attributes, outer + local).value;
    CallRunEnds(S, c, order, r, imports, calls, n, ins, bodies, p);
    CallMeaning(S, c, order, r, imports, calls, n, ins, bodies, p);
  }
}
