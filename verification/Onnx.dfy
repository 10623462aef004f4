// The protobuf messages that the checker and the operator-group tools walk, reduced to the fields they read.

module Onnx {
  import opened Basics

  // `Opaque` stands for every type that is not a dense tensor type; `id` tells them apart.
  datatype ValueType = TensorType(elemType: int, dims: seq<int>) | Opaque(id: int)

  datatype ValueInfo = ValueInfo(name: string, valueType: ValueType)

  // A dense, sparse or extended initializer. `payload` stands for its value.
  datatype Initializer = Initializer(name: string, elemType: int, dims: seq<int>, payload: int)

  datatype Attribute = Attribute(name: string, refAttrName: string, isString: bool, s: string,
                                 g: Option<Graph>, graphs: seq<Graph>)

  datatype Node = Node(domain: string, opType: string, overload: string,
                       inputs: seq<string>, outputs: seq<string>, attributes: seq<Attribute>)

  datatype Graph = Graph(name: string, inputs: seq<ValueInfo>, outputs: seq<ValueInfo>, valueInfo: seq<ValueInfo>,
                         initializers: seq<Initializer>, sparseInitializers: seq<Initializer>,
                         extendedInitializers: seq<Initializer>, nodes: seq<Node>)

  datatype OpsetImport = OpsetImport(domain: string, version: int)

  datatype Function = Function(domain: string, name: string, overload: string,
                               inputs: seq<string>, outputs: seq<string>,
                               attributes: seq<string>, attributeProtos: seq<Attribute>,
                               opsetImports: seq<OpsetImport>, valueInfo: seq<ValueInfo>, nodes: seq<Node>)

  datatype Model = Model(graph: Graph, functions: seq<Function>)

  // The graphs of an attribute, in the order in which the code visits them: `g`, then `graphs`.
  function Bodies(a: Attribute): seq<Graph> {
    (if a.g.Some? then [a.g.value] else []) + a.graphs
  }

  // ----- identifiers of operators and functions -----

  // common/constants.h: only "ai.onnx" is folded, into the empty domain.
  function NormalizeDomain(domain: string): string {
    if domain == "ai.onnx" then "" else domain
  }

  // onnx_helper.h: the empty domain and "onnx.ai" are folded into "ai.onnx".
  function NormaliseDomain(domain: string): string {
    if domain == "" || domain == "onnx.ai" then "ai.onnx" else domain
  }

  function ImplId(domain: string, op: string, overload: string): string {
    NormalizeDomain(domain) + "::" + op + if overload == "" then "" else "::" + overload
  }

  function FunctionImplId(f: Function): string {
    ImplId(f.domain, f.name, f.overload)
  }

  function CalleeId(n: Node): string {
    ImplId(n.domain, n.opType, n.overload)
  }

  lemma {:induction false} EqualFronts(a: string, b: string, rest: string)
    requires a + rest == b + rest
    ensures a == b
  {
    assert |a| == |b|;
    assert a == (a + rest)[..|a|] && b == (b + rest)[..|b|];
  }

  // Equal operators and overloads are told apart by their domain, but for the two spellings "" and "ai.onnx".
  lemma {:induction false} SameImplIdExactly(d: string, e: string, op: string, overload: string)
    ensures ImplId(d, op, overload) == ImplId(e, op, overload) <==>
      d == e || (d in {"", "ai.onnx"} && e in {"", "ai.onnx"})
  {
    var end := if overload == "" then "" else "::" + overload;
    var rest := "::" + op + end;
    SplitImplId(d, op, overload, rest);
    SplitImplId(e, op, overload, rest);
    if NormalizeDomain(d) + rest == NormalizeDomain(e) + rest {
      EqualFronts(NormalizeDomain(d), NormalizeDomain(e), rest);
    }
  }

  lemma {:induction false} SplitImplId(d: string, op: string, overload: string, rest: string)
    requires rest == "::" + op + if overload == "" then "" else "::" + overload
    ensures ImplId(d, op, overload) == NormalizeDomain(d) + rest
  {
    var end := if overload == "" then "" else "::" + overload;
    assert NormalizeDomain(d) + "::" + op + end == NormalizeDomain(d) + ("::" + op + end);
  }

  lemma {:induction false} ImplIdIsSpelt()
    ensures ImplId("ai.onnx", "Add", "") == "::Add" && ImplId("d", "f", "v") == "d::f::v"
  {
    assert "" + "::" + "Add" + "" == "::Add";
    assert "d" + "::" + "f" + ("::" + "v") == "d::f::v";
  }

  // ----- nodes at every depth -----

  function AllNodes(ns: seq<Node>): set<Node>
    decreases ns, 0
  {
    if ns == [] then {} else {ns[0]} + AttributesNodes(ns[0].attributes) + AllNodes(ns[1..])
  }

  function AttributesNodes(xs: seq<Attribute>): set<Node>
    decreases xs, 0
  {
    if xs == [] then {} else AttributeNodes(xs[0]) + AttributesNodes(xs[1..])
  }

  function AttributeNodes(a: Attribute): set<Node>
    decreases a, 1
  {
    (if a.g.Some? then AllNodes(a.g.value.nodes) else {}) + GraphsNodes(a.graphs)
  }

  function GraphsNodes(gs: seq<Graph>): set<Node>
    decreases gs, 0
  {
    if gs == [] then {} else AllNodes(gs[0].nodes) + GraphsNodes(gs[1..])
  }

  // ----- number of messages in a tree, the measure of the worklists -----

  function GraphSize(g: Graph): nat
    decreases g, 1
  {
    1 + NodesSize(g.nodes)
  }

  function GraphsSize(gs: seq<Graph>): nat
    decreases gs, 0
  {
    if gs == [] then 0 else GraphSize(gs[0]) + GraphsSize(gs[1..])
  }

  function NodeSize(n: Node): nat
    decreases n, 1
  {
    1 + AttributesSize(n.attributes)
  }

  function NodesSize(ns: seq<Node>): nat
    decreases ns, 0
  {
    if ns == [] then 0 else NodeSize(ns[0]) + NodesSize(ns[1..])
  }

  function AttributeSize(a: Attribute): nat
    decreases a, 1
  {
    1 + (if a.g.Some? then GraphSize(a.g.value) else 0) + GraphsSize(a.graphs)
  }

  function AttributesSize(xs: seq<Attribute>): nat
    decreases xs, 0
  {
    if xs == [] then 0 else AttributeSize(xs[0]) + AttributesSize(xs[1..])
  }

  lemma {:induction false} NodesSizeConcat(a: seq<Node>, b: seq<Node>)
    ensures NodesSize(a + b) == NodesSize(a) + NodesSize(b)
  {
    if a == [] {
      assert a + b == b;
    } else {
      assert (a + b)[1..] == a[1..] + b;
      NodesSizeConcat(a[1..], b);
    }
  }

  lemma {:induction false} GraphsSizeConcat(a: seq<Graph>, b: seq<Graph>)
    ensures GraphsSize(a + b) == GraphsSize(a) + GraphsSize(b)
  {
    if a == [] {
      assert a + b == b;
    } else {
      assert (a + b)[1..] == a[1..] + b;
      GraphsSizeConcat(a[1..], b);
    }
  }

  lemma {:induction false} BodiesSize(a: Attribute)
    ensures AttributeSize(a) == 1 + GraphsSize(Bodies(a))
  {
    if a.g.Some? {
      assert Bodies(a)[1..] == a.graphs;
    } else {
      assert Bodies(a) == a.graphs;
    }
  }
}
