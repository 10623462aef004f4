// The operator part of check_node (onnx_lib/checker.cc): which operators a node may name, given the opset imports in
// force, the schema registry and the model-local functions.

module OperatorChecks {
  import opened Basics
  import opened Onnx
  import opened Opsets

  const BUILT_IN_DOMAINS: set<string> := {"", "ai.onnx.ml", "ai.onnx.training"}

  const EXPERIMENTAL_OPS: set<string> := {
    "ATen", "Affine", "ConstantFill", "Crop", "DynamicSlice", "GRUUnit", "GivenTensorFill", "ImageScaler",
    "ParametricSoftplus", "Scale", "ScaledTanh"
  }

  // `localIds` are the identifiers of the model-local functions. `verifies` stands for the tests on a node whose
  // operator has a schema at a version: the schema is not deprecated, its Verify passes, and a tree ensemble has
  // fitting
  // attributes.
  datatype Operators = Operators(
    registry: Registry,
    localIds: set<string>,
    checkCustomDomain: bool,
    verifies: (Node, int) -> bool)

  predicate IsExperimental(n: Node) {
    (n.domain == "" || n.domain == "ai.onnx") && n.opType in EXPERIMENTAL_OPS
  }

  // Nodes that are left alone: experimental ones, and calls of local functions that no schema hides.
  predicate IsExempt(n: Node, schema: Option<Schema>, ops: Operators) {
    IsExperimental(n) || (CalleeId(n) in ops.localIds && schema.None?)
  }

  function SchemaOf(n: Node, imports: Imports, registry: Registry): Option<Schema> {
    registry(n.opType, VersionForDomain(n.domain, imports), SchemaDomain(n.domain))
  }

  // The domain is imported under one of its names. An operator with a schema verifies, and has an overload only if that
  // names a local function; one without a schema is local, experimental or of a custom domain that is not checked.
  ghost predicate OperatorAllowed(n: Node, imports: Imports, ops: Operators) {
    && Imported(n.domain, imports)
    && var schema := SchemaOf(n, imports, ops.registry);
    || IsExempt(n, schema, ops)
    || (schema.Some? && (n.overload == "" || CalleeId(n) in ops.localIds) &&
         ops.verifies(n, VersionForDomain(n.domain, imports)))
    || (schema.None? && SchemaDomain(n.domain) !in BUILT_IN_DOMAINS && !ops.checkCustomDomain)
  }

  // All cases, on the registry and with the names written out. Experimental operators are exempt under two spellings of
  // the ONNX domain only. Without a schema, an operator that is not local passes only outside of the domains of ONNX,
  // and
  // there exactly when custom domains are not checked.
  lemma {:induction false} OperatorAllowedExactly(n: Node, imports: Imports, ops: Operators)
    ensures var version := VersionForDomain(n.domain, imports);
      var domain := if n.domain in {"", "ai.onnx", "onnx.ai"} then "" else n.domain;
      var schema, isLocal := ops.registry(n.opType, version, domain), CalleeId(n) in ops.localIds;
      OperatorAllowed(n, imports, ops) <==>
        && (n.domain in imports ||
            (n.domain in {"", "ai.onnx", "onnx.ai"} && ("" in imports || "ai.onnx" in imports || "onnx.ai" in imports)))
        && if n.domain in {"", "ai.onnx"} && n.opType in {"ATen", "Affine", "ConstantFill", "Crop", "DynamicSlice",
             "GRUUnit", "GivenTensorFill", "ImageScaler", "ParametricSoftplus", "Scale", "ScaledTanh"} then true
           else if schema.Some? then (n.overload == "" || isLocal) && ops.verifies(n, version)
           else isLocal || (n.domain !in {"", "ai.onnx", "onnx.ai", "ai.onnx.ml", "ai.onnx.training"} &&
                            !ops.checkCustomDomain)
  {
    SchemaDomainIs(n.domain);
    assert ALIASES[0] == "" && ALIASES[1] == "ai.onnx" && ALIASES[2] == "onnx.ai";
    assert Imported(n.domain, imports) <==>
      n.domain in imports ||
      (n.domain in {"", "ai.onnx", "onnx.ai"} && ("" in imports || "ai.onnx" in imports || "onnx.ai" in imports));
  }

  // The version under which the domain is imported: as spelt, or for the ONNX domain under the first alias that is.
  method FindImport(domain: string, imports: Imports) returns (version: Option<int>)
    ensures version.Some? <==> Imported(domain, imports)
    ensures version.Some? ==> version.value == VersionForDomain(domain, imports)
  {
    if domain in imports {
      return Some(imports[domain]);
    }
    if SchemaDomain(domain) != "" {
      return None;
    }
    FirstAliasFound(imports, ALIASES);
    assert ALIASES[0..] == ALIASES;
    for i := 0 to |ALIASES|
      invariant FirstAlias(imports, ALIASES) == FirstAlias(imports, ALIASES[i..])
    {
      assert ALIASES[i..][0] == ALIASES[i] && ALIASES[i..][1..] == ALIASES[i + 1..];
      if ALIASES[i] in imports {
        return Some(imports[ALIASES[i]]);
      }
    }
    version := None;
  }

  method CheckOperator(n: Node, imports: Imports, version: int, ops: Operators) returns (ok: bool)
    requires Imported(n.domain, imports) && version == VersionForDomain(n.domain, imports)
    ensures ok <==> OperatorAllowed(n, imports, ops)
  {
    var isLocal := CalleeId(n) in ops.localIds;
    var schema := ops.registry(n.opType, version, SchemaDomain(n.domain));
    if isLocal && schema.None? {
      return true;
    }
    if IsExperimental(n) {
      return true;
    }
    if schema.Some? && n.overload != "" && !isLocal {
      return false;
    }
    if schema.None? {
      ok := !(SchemaDomain(n.domain) in BUILT_IN_DOMAINS || ops.checkCustomDomain);
    } else {
      ok := ops.verifies(n, version);
    }
  }
}
