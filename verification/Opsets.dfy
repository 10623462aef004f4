// Opset imports and the rule that keeps model-local functions and the model on the same operator schemas.

module Opsets {
  import opened Basics
  import opened Onnx

  type Imports = map<string, int>

  // The point of evolution that a schema lookup lands on.
  datatype Schema = Schema(sinceVersion: int)

  // GetSchema(op, version, domain), with the registered operators left open.
  type Registry = (string, int, string) -> Option<Schema>

  const INT_MIN := -0x8000_0000
  const INT_MAX := 0x7fff_ffff

  const ALIASES: seq<string> := ["", "ai.onnx", "onnx.ai"]

  // None where the original fails the check.
  function CheckedOpsetVersion(version: int): Option<int> {
    if version < INT_MIN || version > INT_MAX then None else Some(version)
  }

  function FirstAlias(imports: Imports, aliases: seq<string>): Option<int> {
    if aliases == [] then None
    else if aliases[0] in imports then Some(imports[aliases[0]])
    else FirstAlias(imports, aliases[1..])
  }

  // -1 when the domain is imported under none of its names.
  function VersionForDomain(domain: string, imports: Imports): int {
    if domain in imports then imports[domain]
    else if NormaliseDomain(domain) == "ai.onnx" then
      var v := FirstAlias(imports, ALIASES);
      if v.Some? then v.value else -1
    else -1
  }

  // The name under which a node's domain is known to the schema registry.
  function SchemaDomain(domain: string): string {
    if NormaliseDomain(domain) == "ai.onnx" then "" else NormaliseDomain(domain)
  }

  predicate HasOperatorSchema(n: Node, imports: Imports, registry: Registry) {
    var version := VersionForDomain(n.domain, imports);
    version >= 0 && registry(n.opType, version, SchemaDomain(n.domain)).Some?
  }

  lemma {:induction false} SchemaDomainIs(domain: string)
    ensures SchemaDomain(domain) == if domain in {"", "ai.onnx", "onnx.ai"} then "" else domain
  {
  }

  // The import as spelt decides, and for the names of the ONNX domain, after that, "", "ai.onnx" and "onnx.ai" in this
  // order.
  lemma {:induction false} VersionLookup(domain: string, imports: Imports)
    ensures VersionForDomain(domain, imports) ==
      if domain in imports then imports[domain]
      else if domain !in {"", "ai.onnx", "onnx.ai"} then -1
      else if "" in imports then imports[""]
      else if "ai.onnx" in imports then imports["ai.onnx"]
      else if "onnx.ai" in imports then imports["onnx.ai"]
      else -1
  {
    var two, three := ALIASES[1..], ALIASES[2..];
    assert ALIASES[0] == "" && two[0] == "ai.onnx" && two[1..] == three && three[0] == "onnx.ai" && three[1..] == [];
    assert FirstAlias(imports, three[1..]) == None;
    assert FirstAlias(imports, three) == if "onnx.ai" in imports then Some(imports["onnx.ai"]) else None;
    assert FirstAlias(imports, two) ==
      if "ai.onnx" in imports then Some(imports["ai.onnx"]) else FirstAlias(imports, three);
  }

  // ----- import maps -----

  function Key(domain: string, normalise: bool): string {
    if normalise then NormaliseDomain(domain) else domain
  }

  // A later import of a key overwrites an earlier one; None when some version is out of range.
  function ImportsOf(opsets: seq<OpsetImport>, normalise: bool): Option<Imports> {
    if opsets == [] then Some(map[])
    else
      var last := opsets[|opsets| - 1];
      var front := ImportsOf(opsets[..|opsets| - 1], normalise);
      if front.None? || CheckedOpsetVersion(last.version).None? then None
      else Some(front.value[Key(last.domain, normalise) := last.version])
  }

  predicate VersionFits(o: OpsetImport) {
    INT_MIN <= o.version <= INT_MAX
  }

  // There is an import map exactly when every version fits, and its keys are those that are imported.
  lemma {:induction false} ImportsFit(opsets: seq<OpsetImport>, normalise: bool)
    ensures ImportsOf(opsets, normalise).Some? <==> forall i | 0 <= i < |opsets| :: VersionFits(opsets[i])
    ensures forall o: OpsetImport :: VersionFits(o) <==> -2147483648 <= o.version <= 2147483647
    ensures ImportsOf(opsets, normalise).Some? ==>
      ImportsOf(opsets, normalise).value.Keys == set o | o in opsets :: Key(o.domain, normalise)
  {
    if opsets != [] {
      var n := |opsets| - 1;
      ImportsFit(opsets[..n], normalise);
      assert opsets == opsets[..n] + [opsets[n]];
      assert forall i | 0 <= i < n :: opsets[..n][i] == opsets[i];
    }
  }

  // The last import of a key decides.
  lemma {:induction false} LastImportWins(opsets: seq<OpsetImport>, normalise: bool, i: nat)
    requires ImportsOf(opsets, normalise).Some? && i < |opsets|
    requires forall j | i < j < |opsets| :: Key(opsets[j].domain, normalise) != Key(opsets[i].domain, normalise)
    ensures Key(opsets[i].domain, normalise) in ImportsOf(opsets, normalise).value
    ensures ImportsOf(opsets, normalise).value[Key(opsets[i].domain, normalise)] == opsets[i].version
  {
    if i < |opsets| - 1 {
      assert Key(opsets[|opsets| - 1].domain, normalise) != Key(opsets[i].domain, normalise);
      LastImportWins(opsets[..|opsets| - 1], normalise, i);
    }
  }

  // Every key of the import map comes from an import of the list.
  lemma {:induction false} ImportsComeFromOpsets(opsets: seq<OpsetImport>, normalise: bool, key: string)
    requires ImportsOf(opsets, normalise).Some? && key in ImportsOf(opsets, normalise).value
    ensures exists i | 0 <= i < |opsets| ::
      Key(opsets[i].domain, normalise) == key && opsets[i].version == ImportsOf(opsets, normalise).value[key]
  {
    var front := opsets[..|opsets| - 1];
    if Key(opsets[|opsets| - 1].domain, normalise) != key {
      ImportsComeFromOpsets(front, normalise, key);
      var i :| 0 <= i < |front| && Key(front[i].domain, normalise) == key &&
        front[i].version == ImportsOf(front, normalise).value[key];
      assert opsets[i] == front[i];
    }
  }

  // Keyed by normalised domain, the last import under any name of the ONNX domain decides for all of its names.
  lemma {:induction false} LastOnnxImportWins(opsets: seq<OpsetImport>, i: nat, domain: string)
    requires ImportsOf(opsets, true).Some? && i < |opsets|
    requires {opsets[i].domain, domain} <= {"", "ai.onnx", "onnx.ai"}
    requires forall j | i < j < |opsets| :: opsets[j].domain !in {"", "ai.onnx", "onnx.ai"}
    ensures VersionForDomain(domain, ImportsOf(opsets, true).value) == opsets[i].version
  {
    var imports := ImportsOf(opsets, true).value;
    assert domain in {"", "ai.onnx", "onnx.ai"} && opsets[i].domain in {"", "ai.onnx", "onnx.ai"};
    forall j | i < j < |opsets| ensures Key(opsets[j].domain, true) != Key(opsets[i].domain, true) {
      assert opsets[j].domain !in {"", "ai.onnx", "onnx.ai"};
    }
    LastImportWins(opsets, true, i);
    ImportsFit(opsets, true);
    assert forall d | d in imports.Keys :: exists o :: o in opsets && d == NormaliseDomain(o.domain);
    assert "" !in imports.Keys && "onnx.ai" !in imports.Keys;
    VersionLookup(domain, imports);
  }

  method BuildImports(opsets: seq<OpsetImport>, normalise: bool) returns (r: Option<Imports>)
    ensures r == ImportsOf(opsets, normalise)
    ensures r.Some? <==> forall i | 0 <= i < |opsets| :: VersionFits(opsets[i])
  {
    ImportsFit(opsets, normalise);
    var imports: Imports := map[];
    for i := 0 to |opsets|
      invariant ImportsOf(opsets[..i], normalise) == Some(imports)
    {
      assert opsets[..i + 1][..i] == opsets[..i];
      var v := CheckedOpsetVersion(opsets[i].version);
      if v.None? {
        FailureSpreads(opsets, i + 1, normalise);
        return None;
      }
      imports := imports[Key(opsets[i].domain, normalise) := v.value];
    }
    assert opsets[..|opsets|] == opsets;
    r := Some(imports);
  }

  lemma {:induction false} FailureSpreads(opsets: seq<OpsetImport>, n: nat, normalise: bool)
    requires n <= |opsets| && ImportsOf(opsets[..n], normalise).None?
    ensures ImportsOf(opsets, normalise).None?
  {
    if n < |opsets| {
      assert opsets[..|opsets| - 1][..n] == opsets[..n];
      FailureSpreads(opsets[..|opsets| - 1], n, normalise);
    } else {
      assert opsets[..n] == opsets;
    }
  }

  // ----- merging the imports of all functions into those of the model -----

  function AllOpsets(functions: seq<Function>): seq<OpsetImport> {
    if functions == [] then [] else AllOpsets(functions[..|functions| - 1]) + functions[|functions| - 1].opsetImports
  }

  // An import is added only while its domain resolves to nothing.
  function Merge(model: Imports, opsets: seq<OpsetImport>): Option<Imports> {
    if opsets == [] then Some(model)
    else
      var front, o := Merge(model, opsets[..|opsets| - 1]), opsets[|opsets| - 1];
      if front.None? then None
      else if VersionForDomain(o.domain, front.value) != -1 then front
      else if CheckedOpsetVersion(o.version).None? then None
      else Some(front.value[o.domain := o.version])
  }

  // Merging one list after another is merging their concatenation.
  lemma {:induction false} MergeConcat(model: Imports, a: seq<OpsetImport>, b: seq<OpsetImport>)
    ensures Merge(model, a + b) ==
      if Merge(model, a).None? then None else Merge(Merge(model, a).value, b)
  {
    if b == [] {
      assert a + b == a;
    } else {
      assert (a + b)[..|a + b| - 1] == a + b[..|b| - 1];
      MergeConcat(model, a, b[..|b| - 1]);
    }
  }

  // The loop over the imports of one function.
  method MergeFunctionImports(model: Imports, opsets: seq<OpsetImport>) returns (r: Option<Imports>)
    ensures r == Merge(model, opsets)
  {
    var merged := model;
    for j := 0 to |opsets|
      invariant Merge(model, opsets[..j]) == Some(merged)
    {
      assert opsets[..j + 1][..j] == opsets[..j];
      if VersionForDomain(opsets[j].domain, merged) == -1 {
        var v := CheckedOpsetVersion(opsets[j].version);
        if v.None? {
          assert opsets == opsets[..j + 1] + opsets[j + 1..];
          MergeConcat(model, opsets[..j + 1], opsets[j + 1..]);
          return None;
        }
        merged := merged[opsets[j].domain := v.value];
      }
    }
    assert opsets[..|opsets|] == opsets;
    r := Some(merged);
  }

  method MergeImports(model: Imports, functions: seq<Function>) returns (r: Option<Imports>)
    ensures r == Merge(model, AllOpsets(functions))
  {
    var merged := model;
    for i := 0 to |functions|
      invariant Merge(model, AllOpsets(functions[..i])) == Some(merged)
    {
      assert functions[..i + 1][..i] == functions[..i];
      MergeConcat(model, AllOpsets(functions[..i]), functions[i].opsetImports);
      var m := MergeFunctionImports(merged, functions[i].opsetImports);
      if m.None? {
        AllOpsetsSplit(functions, i + 1);
        MergeConcat(model, AllOpsets(functions[..i + 1]), AllOpsets(functions[i + 1..]));
        return None;
      }
      merged := m.value;
    }
    assert functions[..|functions|] == functions;
    r := Some(merged);
  }

  lemma {:induction false} AllOpsetsSplit(functions: seq<Function>, n: nat)
    requires n <= |functions|
    ensures AllOpsets(functions) == AllOpsets(functions[..n]) + AllOpsets(functions[n..])
  {
    if n < |functions| {
      var front := functions[..|functions| - 1];
      assert front[..n] == functions[..n] && front[n..] == functions[n..][..|functions| - n - 1];
      AllOpsetsSplit(front, n);
    } else {
      assert functions[..n] == functions && functions[n..] == [];
    }
  }

  // The imports of earlier functions come first, each function's in its own order.
  lemma {:induction false} AllOpsetsInOrder(functions: seq<Function>, k: nat, i: nat)
    requires k < |functions| && i < |functions[k].opsetImports|
    ensures |AllOpsets(functions[..k])| + i < |AllOpsets(functions)|
    ensures AllOpsets(functions)[|AllOpsets(functions[..k])| + i] == functions[k].opsetImports[i]
  {
    AllOpsetsSplit(functions, k + 1);
    assert functions[..k + 1][..k] == functions[..k];
  }

  // No import carries the version -1 that VersionForDomain uses for "not imported".
  predicate NoSentinel(imports: Imports) {
    forall d | d in imports :: imports[d] != -1
  }

  // The domain is imported under one of its names.
  predicate Imported(domain: string, imports: Imports) {
    domain in imports || (NormaliseDomain(domain) == "ai.onnx" && exists a | a in ALIASES :: a in imports)
  }

  lemma {:induction false} FirstAliasFound(imports: Imports, aliases: seq<string>)
    ensures FirstAlias(imports, aliases).Some? <==> exists a | a in aliases :: a in imports
    ensures FirstAlias(imports, aliases).Some? ==>
      exists a | a in aliases :: a in imports && FirstAlias(imports, aliases).value == imports[a]
  {
    if aliases != [] {
      FirstAliasFound(imports, aliases[1..]);
      assert forall a | a in aliases :: a == aliases[0] || a in aliases[1..];
    }
  }

  // -1 answers exactly "not imported" as long as no import carries -1 itself.
  lemma {:induction false} VersionFound(domain: string, imports: Imports)
    requires NoSentinel(imports)
    ensures VersionForDomain(domain, imports) != -1 <==> Imported(domain, imports)
  {
    FirstAliasFound(imports, ALIASES);
  }

  predicate IsAlias(domain: string) {
    NormaliseDomain(domain) == "ai.onnx"
  }

  lemma {:induction false} AliasesAreListed(domain: string)
    ensures IsAlias(domain) <==> domain in ALIASES
  {
    assert ALIASES[0] == "" && ALIASES[1] == "ai.onnx" && ALIASES[2] == "onnx.ai";
  }

  function Domains(opsets: seq<OpsetImport>): set<string> {
    set o | o in opsets :: o.domain
  }

  // An import that is recorded leaves the first imported alias as it is, unless there is none or it stands for
  // "not imported".
  lemma {:induction false} FirstAliasAfterUpdate(imports: Imports, aliases: seq<string>, domain: string, version: int)
    requires FirstAlias(imports, aliases).Some? && domain in imports ==> imports[domain] == -1
    requires FirstAlias(imports, aliases).Some? && FirstAlias(imports, aliases).value != -1
    ensures FirstAlias(imports[domain := version], aliases) == FirstAlias(imports, aliases) ||
      (domain !in imports && domain in aliases)
  {
    if aliases[0] !in imports {
      if aliases[0] != domain {
        FirstAliasAfterUpdate(imports, aliases[1..], domain, version);
      }
    }
  }

  // Once a domain resolves it goes on resolving.
  lemma {:induction false} ResolvedStays(imports: Imports, o: OpsetImport, domain: string)
    requires VersionForDomain(domain, imports) != -1 && VersionForDomain(o.domain, imports) == -1
    ensures VersionForDomain(domain, imports[o.domain := o.version]) == VersionForDomain(domain, imports)
  {
    AliasesAreListed(domain);
    AliasesAreListed(o.domain);
    if domain !in imports {
      FirstAliasAfterUpdate(imports, ALIASES, o.domain, o.version);
    }
  }

  lemma {:induction false} ResolvedSurvivesMerge(model: Imports, opsets: seq<OpsetImport>, n: nat, domain: string)
    requires n <= |opsets| && Merge(model, opsets).Some?
    ensures Merge(model, opsets[..n]).Some?
    ensures VersionForDomain(domain, Merge(model, opsets[..n]).value) != -1 ==>
      VersionForDomain(domain, Merge(model, opsets).value) == VersionForDomain(domain, Merge(model, opsets[..n]).value)
  {
    if n < |opsets| {
      var front := opsets[..|opsets| - 1];
      assert front[..n] == opsets[..n];
      ResolvedSurvivesMerge(model, front, n, domain);
      var before, o := Merge(model, front).value, opsets[|opsets| - 1];
      if VersionForDomain(domain, before) != -1 && VersionForDomain(o.domain, before) == -1 {
        ResolvedStays(before, o, domain);
      }
    } else {
      assert opsets[..n] == opsets;
    }
  }

  // Whatever resolves in the model's imports keeps its version through the merge, and every import of the list, unless
  // it carries -1, resolves afterwards.
  lemma {:induction false} MergedImportsResolve(model: Imports, opsets: seq<OpsetImport>)
    requires Merge(model, opsets).Some?
    ensures var merged := Merge(model, opsets).value;
      && (forall d | VersionForDomain(d, model) != -1 :: VersionForDomain(d, merged) == VersionForDomain(d, model))
      && (forall i | 0 <= i < |opsets| && opsets[i].version != -1 :: VersionForDomain(opsets[i].domain, merged) != -1)
  {
    var merged := Merge(model, opsets).value;
    forall d | VersionForDomain(d, model) != -1 ensures VersionForDomain(d, merged) == VersionForDomain(d, model) {
      assert opsets[..0] == [];
      ResolvedSurvivesMerge(model, opsets, 0, d);
    }
    forall i | 0 <= i < |opsets| && opsets[i].version != -1 ensures VersionForDomain(opsets[i].domain, merged) != -1 {
      ImportResolves(model, opsets, i);
    }
  }

  lemma {:induction false} ImportResolves(model: Imports, opsets: seq<OpsetImport>, i: nat)
    requires Merge(model, opsets).Some? && i < |opsets| && opsets[i].version != -1
    ensures VersionForDomain(opsets[i].domain, Merge(model, opsets).value) != -1
  {
    ResolvedSurvivesMerge(model, opsets, i + 1, opsets[i].domain);
    assert opsets[..i + 1][..i] == opsets[..i];
  }

  // ----- which domains the merge leaves without a version -----

  predicate Gives(o: OpsetImport, key: string) {
    o.domain == key && o.version != -1
  }

  // The model or a function imports the key, and not at -1.
  predicate Sourced(key: string, model: Imports, opsets: seq<OpsetImport>) {
    (key in model && model[key] != -1) || exists i | 0 <= i < |opsets| :: Gives(opsets[i], key)
  }

  // The first alias that the model or a function imports.
  function FirstNamed(model: Imports, domains: set<string>, aliases: seq<string>): Option<string> {
    if aliases == [] then None
    else if aliases[0] in model || aliases[0] in domains then Some(aliases[0])
    else FirstNamed(model, domains, aliases[1..])
  }

  // An alias that is imported nowhere finds no version: no alias is imported, or the first one at -1 only.
  predicate Blind(model: Imports, opsets: seq<OpsetImport>) {
    var first := FirstNamed(model, Domains(opsets), ALIASES);
    first.None? || !Sourced(first.value, model, opsets)
  }

  // That is so after any number of the imports.
  predicate BlindThroughout(model: Imports, opsets: seq<OpsetImport>) {
    forall n | 0 <= n <= |opsets| :: Blind(model, opsets[..n])
  }

  // The imports that come before the first one of the domain; all of them if there is none.
  function Preceding(domain: string, opsets: seq<OpsetImport>): (front: seq<OpsetImport>)
    ensures |front| <= |opsets| && front == opsets[..|front|] && domain !in Domains(front)
    ensures |front| < |opsets| ==> opsets[|front|].domain == domain
  {
    if opsets == [] || opsets[0].domain == domain then []
    else
      var rest := Preceding(domain, opsets[1..]);
      assert [opsets[0]] + rest == opsets[..1 + |rest|];
      [opsets[0]] + rest
  }

  // No import gives the domain a version, and as an alias it found that of no other alias before it was imported.
  predicate Hidden(domain: string, model: Imports, opsets: seq<OpsetImport>) {
    && !Sourced(domain, model, opsets)
    && (IsAlias(domain) && domain !in model ==> BlindThroughout(model, Preceding(domain, opsets)))
  }

  lemma {:induction false} SourcesResolve(model: Imports, opsets: seq<OpsetImport>, key: string)
    requires Merge(model, opsets).Some? && Sourced(key, model, opsets)
    ensures VersionForDomain(key, Merge(model, opsets).value) != -1
  {
    if key in model && model[key] != -1 {
      MergedImportsResolve(model, opsets);
    } else {
      var i :| 0 <= i < |opsets| && Gives(opsets[i], key);
      ImportResolves(model, opsets, i);
    }
  }

  lemma {:induction false} SourcedInMore(key: string, model: Imports, opsets: seq<OpsetImport>, n: nat)
    requires n <= |opsets| && Sourced(key, model, opsets[..n])
    ensures Sourced(key, model, opsets)
  {
    if !(key in model && model[key] != -1) {
      var i :| 0 <= i < n && Gives(opsets[..n][i], key);
      assert Gives(opsets[i], key);
    }
  }

  // Keys of the merge are imported somewhere, and their versions other than -1 as well.
  lemma {:induction false} KeysAreImported(model: Imports, opsets: seq<OpsetImport>, key: string)
    requires Merge(model, opsets).Some? && key in Merge(model, opsets).value
    ensures key in model || key in Domains(opsets)
    ensures Merge(model, opsets).value[key] != -1 ==> Sourced(key, model, opsets)
  {
    if opsets != [] {
      var n := |opsets| - 1;
      var before := Merge(model, opsets[..n]).value;
      if key in before && Merge(model, opsets).value[key] == before[key] {
        KeysAreImported(model, opsets[..n], key);
        if before[key] != -1 {
          SourcedInMore(key, model, opsets, n);
        }
      } else {
        assert Merge(model, opsets).value == before[opsets[n].domain := opsets[n].version];
        assert Gives(opsets[n], key) || opsets[n].version == -1;
      }
    }
  }

  // A key of the merge carries -1 exactly when no import gives it a version.
  lemma {:induction false} MergedVersion(model: Imports, opsets: seq<OpsetImport>, key: string)
    requires Merge(model, opsets).Some? && key in Merge(model, opsets).value
    ensures Merge(model, opsets).value[key] != -1 <==> Sourced(key, model, opsets)
  {
    KeysAreImported(model, opsets, key);
    if Sourced(key, model, opsets) {
      SourcesResolve(model, opsets, key);
    }
  }

  lemma {:induction false} KeysStay(model: Imports, opsets: seq<OpsetImport>, n: nat)
    requires n <= |opsets| && Merge(model, opsets).Some?
    ensures Merge(model, opsets[..n]).Some? && Merge(model, opsets[..n]).value.Keys <= Merge(model, opsets).value.Keys
  {
    if n < |opsets| {
      assert opsets[..|opsets| - 1][..n] == opsets[..n];
      KeysStay(model, opsets[..|opsets| - 1], n);
    } else {
      assert opsets[..n] == opsets;
    }
  }

  // The first alias among imports that are taken from the model and the functions.
  lemma {:induction false} FirstRecorded(imports: Imports, model: Imports, domains: set<string>, aliases: seq<string>)
    requires imports.Keys <= model.Keys + domains
    requires var first := FirstNamed(model, domains, aliases); first.Some? ==> first.value in imports
    ensures FirstAlias(imports, aliases) ==
      var first := FirstNamed(model, domains, aliases);
      if first.None? then None else Some(imports[first.value])
  {
    if aliases != [] && aliases[0] !in model && aliases[0] !in domains {
      assert aliases[0] !in imports.Keys;
      FirstRecorded(imports, model, domains, aliases[1..]);
    }
  }

  ghost predicate AllRecorded(model: Imports, opsets: seq<OpsetImport>) {
    && Merge(model, opsets).Some?
    && forall a | a in ALIASES && (a in model || a in Domains(opsets)) :: a in Merge(model, opsets).value
  }

  lemma {:induction false} FirstNamedIsAlias(model: Imports, domains: set<string>, aliases: seq<string>)
    ensures var first := FirstNamed(model, domains, aliases);
      first.Some? ==> first.value in aliases && (first.value in model || first.value in domains)
  {
    if aliases != [] {
      FirstNamedIsAlias(model, domains, aliases[1..]);
    }
  }

  lemma {:induction false} MergedKeys(model: Imports, opsets: seq<OpsetImport>)
    requires Merge(model, opsets).Some?
    ensures Merge(model, opsets).value.Keys <= model.Keys + Domains(opsets)
  {
    forall key | key in Merge(model, opsets).value ensures key in model.Keys + Domains(opsets) {
      KeysAreImported(model, opsets, key);
    }
  }

  // While all aliases are recorded, another alias finds no version exactly when the merge is blind.
  lemma {:induction false} RecordedIsBlind(model: Imports, opsets: seq<OpsetImport>, domain: string)
    requires AllRecorded(model, opsets) && IsAlias(domain) && domain !in Merge(model, opsets).value
    ensures VersionForDomain(domain, Merge(model, opsets).value) == -1 <==> Blind(model, opsets)
  {
    var first := FirstNamed(model, Domains(opsets), ALIASES);
    FirstNamedIsAlias(model, Domains(opsets), ALIASES);
    MergedKeys(model, opsets);
    FirstRecorded(Merge(model, opsets).value, model, Domains(opsets), ALIASES);
    if first.Some? {
      MergedVersion(model, opsets, first.value);
    }
  }

  // As long as the merge is blind, it records every alias.
  lemma {:induction false} BlindRecords(model: Imports, opsets: seq<OpsetImport>)
    requires Merge(model, opsets).Some? && BlindThroughout(model, opsets)
    ensures AllRecorded(model, opsets)
  {
    if opsets != [] {
      var n := |opsets| - 1;
      var front, o := opsets[..n], opsets[n];
      forall k | 0 <= k <= n ensures Blind(model, front[..k]) {
        assert front[..k] == opsets[..k];
      }
      BlindRecords(model, front);
      AliasesAreListed(o.domain);
      if IsAlias(o.domain) && o.domain !in Merge(model, front).value {
        assert front[..n] == front;
        RecordedIsBlind(model, front, o.domain);
      }
    }
  }

  // A merge that is not blind gives every alias a version.
  lemma {:induction false} SeeingResolves(model: Imports, opsets: seq<OpsetImport>, domain: string)
    requires Merge(model, opsets).Some? && !Blind(model, opsets)
    requires IsAlias(domain) && domain !in Merge(model, opsets).value
    ensures VersionForDomain(domain, Merge(model, opsets).value) != -1
  {
    var merged, first := Merge(model, opsets).value, FirstNamed(model, Domains(opsets), ALIASES).value;
    SourcesResolve(model, opsets, first);
    FirstNamedIsAlias(model, Domains(opsets), ALIASES);
    AliasesAreListed(first);
    if first in merged {
      MergedKeys(model, opsets);
      FirstRecorded(merged, model, Domains(opsets), ALIASES);
    }
  }

  // An alias that is not imported finds no version exactly when the merge is blind throughout.
  lemma {:induction false} StrangersAreBlind(model: Imports, opsets: seq<OpsetImport>, domain: string)
    requires Merge(model, opsets).Some? && IsAlias(domain) && domain !in model && domain !in Domains(opsets)
    ensures VersionForDomain(domain, Merge(model, opsets).value) == -1 <==> BlindThroughout(model, opsets)
  {
    MergedKeys(model, opsets);
    assert domain !in Merge(model, opsets).value.Keys;
    if BlindThroughout(model, opsets) {
      BlindRecords(model, opsets);
      assert opsets[..|opsets|] == opsets;
      RecordedIsBlind(model, opsets, domain);
    } else {
      var n :| 0 <= n <= |opsets| && !Blind(model, opsets[..n]);
      KeysStay(model, opsets, n);
      ResolvedSurvivesMerge(model, opsets, n, domain);
      SeeingResolves(model, opsets[..n], domain);
    }
  }

  // An alias that only functions import, at -1, is settled when it is first imported.
  lemma {:induction false} SettledAtFirstImport(model: Imports, opsets: seq<OpsetImport>, domain: string)
    requires Merge(model, opsets).Some? && domain !in model && !Sourced(domain, model, opsets)
    ensures Merge(model, Preceding(domain, opsets)).Some?
    ensures VersionForDomain(domain, Merge(model, opsets).value) == -1 <==>
      VersionForDomain(domain, Merge(model, Preceding(domain, opsets)).value) == -1
  {
    var front := Preceding(domain, opsets);
    var n := |front|;
    KeysStay(model, opsets, n);
    if VersionForDomain(domain, Merge(model, front).value) != -1 {
      ResolvedSurvivesMerge(model, opsets, n, domain);
    } else if n < |opsets| {
      KeysStay(model, opsets, n + 1);
      assert opsets[..n + 1][..n] == front;
      assert domain in Merge(model, opsets[..n + 1]).value.Keys;
      MergedVersion(model, opsets, domain);
    } else {
      assert front == opsets;
    }
  }

  // Exactly the hidden domains are without a version after the merge.
  lemma {:induction false} MergeHides(model: Imports, opsets: seq<OpsetImport>, domain: string)
    requires Merge(model, opsets).Some?
    ensures VersionForDomain(domain, Merge(model, opsets).value) == -1 <==> Hidden(domain, model, opsets)
  {
    if Sourced(domain, model, opsets) {
      SourcesResolve(model, opsets, domain);
    } else if domain in Merge(model, opsets).value && (domain in model || !IsAlias(domain)) {
      MergedVersion(model, opsets, domain);
    } else if domain in model {
      assert opsets[..0] == [];
      KeysStay(model, opsets, 0);
    } else if IsAlias(domain) {
      SettledAtFirstImport(model, opsets, domain);
      StrangersAreBlind(model, Preceding(domain, opsets), domain);
    }
  }

  // A version of the merge is the model's own, or that of the first import that gives the key one.
  lemma {:induction false} MergedVersionsAreImported(model: Imports, opsets: seq<OpsetImport>, key: string)
    requires Merge(model, opsets).Some? && key in Merge(model, opsets).value
    ensures key in model && model[key] != -1 ==> Merge(model, opsets).value[key] == model[key]
    ensures (key in model ==> model[key] == -1) && Merge(model, opsets).value[key] != -1 ==>
      exists i :: FirstGives(opsets, key, i) && opsets[i].version == Merge(model, opsets).value[key]
  {
    if opsets != [] {
      var n := |opsets| - 1;
      var front, merged := Merge(model, opsets[..n]).value, Merge(model, opsets).value;
      if key in front && merged[key] == front[key] {
        MergedVersionsAreImported(model, opsets[..n], key);
        if i :| FirstGives(opsets[..n], key, i) && opsets[..n][i].version == front[key] {
          assert FirstGives(opsets, key, i);
        }
      } else {
        assert VersionForDomain(key, front) == -1;
        if Sourced(key, model, opsets[..n]) {
          SourcesResolve(model, opsets[..n], key);
        }
        assert merged[key] != -1 ==> FirstGives(opsets, key, n);
      }
    }
  }

  ghost predicate FirstGives(opsets: seq<OpsetImport>, key: string, i: int) {
    0 <= i < |opsets| && Gives(opsets[i], key) && forall j | 0 <= j < i :: !Gives(opsets[j], key)
  }

  // ----- compatibility of a node of a function body -----

  datatype Verdict = NotImported | ModelLacksDomain | SameVersion | NoSchema | SameSchema | Mismatch {
    predicate Accepted() {
      !NotImported? && !Mismatch?
    }
  }

  // What a node's operator means under some imports: the since_version of its schema, or no schema.
  function Resolve(n: Node, imports: Imports, registry: Registry): Option<int> {
    var domain := if NormaliseDomain(n.domain) == "ai.onnx" then "" else n.domain;
    var schema := registry(n.opType, VersionForDomain(n.domain, imports), domain);
    if schema.Some? then Some(schema.value.sinceVersion) else None
  }

  // The verdict accepts exactly when the function imports the domain and, unless the model does not import it, both
  // resolve the operator alike.
  function CheckOpsetCompatibility(n: Node, registry: Registry, func: Imports, model: Imports): (v: Verdict)
    ensures v.Accepted() <==>
      && VersionForDomain(n.domain, func) != -1
      && (VersionForDomain(n.domain, model) == -1 || Resolve(n, func, registry) == Resolve(n, model, registry))
    ensures v.ModelLacksDomain? <==> VersionForDomain(n.domain, func) != -1 && VersionForDomain(n.domain, model) == -1
  {
    var funcVersion, modelVersion := VersionForDomain(n.domain, func), VersionForDomain(n.domain, model);
    if funcVersion == -1 then NotImported
    else if modelVersion == -1 then ModelLacksDomain
    else if funcVersion == modelVersion then SameVersion
    else
      var domain := if NormaliseDomain(n.domain) == "ai.onnx" then "" else n.domain;
      var forModel, forFunc := registry(n.opType, modelVersion, domain), registry(n.opType, funcVersion, domain);
      if forModel.None? && forFunc.None? then NoSchema
      else if forModel.None? || forFunc.None? || forFunc.value.sinceVersion != forModel.value.sinceVersion then Mismatch
      else SameSchema
  }

  // On the registry: two different versions are accepted exactly when both lookups in the domain of the node, where the
  // names of the ONNX domain stand for "", find no schema or schemas that are equally old.
  lemma {:induction false} CompatibleExactly(n: Node, registry: Registry, func: Imports, model: Imports)
    ensures var f, m := VersionForDomain(n.domain, func), VersionForDomain(n.domain, model);
      var domain := if n.domain in {"", "ai.onnx", "onnx.ai"} then "" else n.domain;
      var mine, theirs := registry(n.opType, f, domain), registry(n.opType, m, domain);
      CheckOpsetCompatibility(n, registry, func, model).Accepted() <==>
        f != -1 && (m == -1 || f == m || (mine.None? && theirs.None?) ||
                    (mine.Some? && theirs.Some? && mine.value.sinceVersion == theirs.value.sinceVersion))
  {
  }

  // The opset part of check_function: the top-level nodes of the body against the function's own imports.
  ghost predicate BodyCompatible(f: Function, registry: Registry, merged: Imports) {
    && ImportsOf(f.opsetImports, false).Some?
    && forall i | 0 <= i < |f.nodes| ::
         CheckOpsetCompatibility(f.nodes[i], registry, ImportsOf(f.opsetImports, false).value, merged).Accepted()
  }

  method CheckFunctionOpsets(f: Function, registry: Registry, merged: Imports, skip: bool) returns (ok: bool)
    ensures ok <==> if skip then ImportsOf(f.opsetImports, false).Some? else BodyCompatible(f, registry, merged)
  {
    var imports := BuildImports(f.opsetImports, false);
    if imports.None? {
      return false;
    }
    for i := 0 to |f.nodes|
      invariant !skip ==> forall j | 0 <= j < i ::
        CheckOpsetCompatibility(f.nodes[j], registry, imports.value, merged).Accepted()
    {
      if !skip {
        var v := CheckOpsetCompatibility(f.nodes[i], registry, imports.value, merged);
        if !v.Accepted() {
          return false;
        }
      }
    }
    ok := true;
  }

  lemma {:induction false} OwnDomainsAreListed(functions: seq<Function>, k: nat)
    requires k < |functions| && ImportsOf(functions[k].opsetImports, false).Some?
    ensures var own := ImportsOf(functions[k].opsetImports, false).value;
      forall d | d in own :: OpsetImport(d, own[d]) in AllOpsets(functions)
  {
    var opsets, own := functions[k].opsetImports, ImportsOf(functions[k].opsetImports, false).value;
    AllOpsetsContains(functions, k);
    forall d | d in own ensures OpsetImport(d, own[d]) in AllOpsets(functions) {
      ImportsComeFromOpsets(opsets, false, d);
      var i :| 0 <= i < |opsets| && Key(opsets[i].domain, false) == d && opsets[i].version == own[d];
      assert opsets[i] == OpsetImport(d, own[d]);
    }
  }

  predicate NoSentinelIn(opsets: seq<OpsetImport>) {
    forall i | 0 <= i < |opsets| :: opsets[i].version != -1
  }

  lemma {:induction false} AliasImported(functions: seq<Function>, k: nat, domain: string)
    requires k < |functions| && ImportsOf(functions[k].opsetImports, false).Some?
    requires VersionForDomain(domain, ImportsOf(functions[k].opsetImports, false).value) != -1
    ensures domain in Domains(AllOpsets(functions)) ||
      (IsAlias(domain) && exists a | a in ALIASES :: a in Domains(AllOpsets(functions)))
  {
    var own, all := ImportsOf(functions[k].opsetImports, false).value, AllOpsets(functions);
    OwnDomainsAreListed(functions, k);
    FirstAliasFound(own, ALIASES);
    var d := domain;
    if domain !in own {
      d :| d in ALIASES && d in own;
    }
    assert OpsetImport(d, own[d]) in all;
    assert d in Domains(all);
  }

  // Without any import at -1, a domain whose aliases a function imports is not hidden.
  lemma {:induction false} NothingHides(model: Imports, opsets: seq<OpsetImport>, domain: string)
    requires NoSentinel(model) && NoSentinelIn(opsets)
    requires domain in Domains(opsets) || (IsAlias(domain) && exists a | a in ALIASES :: a in Domains(opsets))
    ensures !Hidden(domain, model, opsets)
  {
    if domain in Domains(opsets) {
      var i :| 0 <= i < |opsets| && opsets[i].domain == domain;
      assert Gives(opsets[i], domain);
    } else if domain !in model {
      var front := Preceding(domain, opsets);
      assert front == opsets && opsets[..|opsets|] == opsets;
      FirstNamedFound(model, Domains(opsets), ALIASES);
      var first := FirstNamed(model, Domains(opsets), ALIASES).value;
      FirstNamedIsAlias(model, Domains(opsets), ALIASES);
      if first !in model {
        var i :| 0 <= i < |opsets| && opsets[i].domain == first;
        assert Gives(opsets[i], first);
      }
      assert !Blind(model, opsets);
    }
  }

  lemma {:induction false} FirstNamedFound(model: Imports, domains: set<string>, aliases: seq<string>)
    requires exists a | a in aliases :: a in domains
    ensures FirstNamed(model, domains, aliases).Some?
  {
    if aliases[0] !in model && aliases[0] !in domains {
      var a :| a in aliases && a in domains;
      assert a in aliases[1..];
      FirstNamedFound(model, domains, aliases[1..]);
    }
  }

  // A domain that resolves in a function resolves in the merged imports as well, so that the checker does not leave
  // through "the model does not import this domain": if the function imports it as spelt or it has one spelling,
  // whatever the versions, and for every domain if no import carries -1.
  lemma {:induction false} MergedImportsCoverFunctions(model: Imports, functions: seq<Function>, k: nat, domain: string)
    requires Merge(model, AllOpsets(functions)).Some?
    requires k < |functions| && ImportsOf(functions[k].opsetImports, false).Some?
    requires VersionForDomain(domain, ImportsOf(functions[k].opsetImports, false).value) != -1
    requires
      || domain in ImportsOf(functions[k].opsetImports, false).value || !IsAlias(domain)
      || (NoSentinel(model) && NoSentinelIn(AllOpsets(functions)))
    ensures !Hidden(domain, model, AllOpsets(functions))
    ensures VersionForDomain(domain, Merge(model, AllOpsets(functions)).value) != -1
  {
    var own, all := ImportsOf(functions[k].opsetImports, false).value, AllOpsets(functions);
    OwnDomainsAreListed(functions, k);
    MergeHides(model, all, domain);
    if domain in own {
      var i :| 0 <= i < |all| && all[i] == OpsetImport(domain, own[domain]);
      assert Gives(all[i], domain);
    } else {
      AliasImported(functions, k, domain);
      NothingHides(model, all, domain);
    }
  }

  // The checker leaves that way exactly for hidden domains.
  lemma {:induction false} LacksDomainExactly(model: Imports, functions: seq<Function>, registry: Registry, k: nat,
                                              n: Node)
    requires Merge(model, AllOpsets(functions)).Some?
    requires k < |functions| && ImportsOf(functions[k].opsetImports, false).Some?
    ensures var own, merged := ImportsOf(functions[k].opsetImports, false).value,
                               Merge(model, AllOpsets(functions)).value;
      CheckOpsetCompatibility(n, registry, own, merged).ModelLacksDomain? <==>
        VersionForDomain(n.domain, own) != -1 && Hidden(n.domain, model, AllOpsets(functions))
  {
    MergeHides(model, AllOpsets(functions), n.domain);
  }

  lemma {:induction false} AllOpsetsContains(functions: seq<Function>, k: nat)
    requires k < |functions|
    ensures forall o | o in functions[k].opsetImports :: o in AllOpsets(functions)
  {
    if k < |functions| - 1 {
      assert functions[..|functions| - 1][k] == functions[k];
      AllOpsetsContains(functions[..|functions| - 1], k);
    }
  }

  // Accepted functions give an operator one meaning: that of the merged imports, hence the same in any two functions.
  lemma {:induction false} AcceptedFunctionsAgree(model: Imports, functions: seq<Function>, registry: Registry,
                                                  k: nat, i: nat)
    requires Merge(model, AllOpsets(functions)).Some? && k < |functions| && i < |functions[k].nodes|
    requires BodyCompatible(functions[k], registry, Merge(model, AllOpsets(functions)).value)
    requires !Hidden(functions[k].nodes[i].domain, model, AllOpsets(functions))
    ensures var own, merged := ImportsOf(functions[k].opsetImports, false).value,
                               Merge(model, AllOpsets(functions)).value;
      var n := functions[k].nodes[i];
      && !CheckOpsetCompatibility(n, registry, own, merged).ModelLacksDomain?
      && Resolve(n, own, registry) == Resolve(n, merged, registry)
  {
    var own, merged := ImportsOf(functions[k].opsetImports, false).value, Merge(model, AllOpsets(functions)).value;
    var n := functions[k].nodes[i];
    assert CheckOpsetCompatibility(n, registry, own, merged).Accepted();
    MergeHides(model, AllOpsets(functions), n.domain);
  }

  // So an operator means the same in any two accepted functions.
  lemma {:induction false} FunctionsAgreeOnOperators(model: Imports, functions: seq<Function>, registry: Registry,
                                                     k: nat, i: nat, l: nat, j: nat)
    requires Merge(model, AllOpsets(functions)).Some?
    requires k < |functions| && i < |functions[k].nodes| && l < |functions| && j < |functions[l].nodes|
    requires BodyCompatible(functions[k], registry, Merge(model, AllOpsets(functions)).value)
    requires BodyCompatible(functions[l], registry, Merge(model, AllOpsets(functions)).value)
    requires functions[k].nodes[i].domain == functions[l].nodes[j].domain
    requires functions[k].nodes[i].opType == functions[l].nodes[j].opType
    requires !Hidden(functions[k].nodes[i].domain, model, AllOpsets(functions))
    ensures Resolve(functions[k].nodes[i], ImportsOf(functions[k].opsetImports, false).value, registry) ==
      Resolve(functions[l].nodes[j], ImportsOf(functions[l].opsetImports, false).value, registry)
  {
    AcceptedFunctionsAgree(model, functions, registry, k, i);
    AcceptedFunctionsAgree(model, functions, registry, l, j);
  }

  const ONNX := OpsetImport("ai.onnx", 13)

  lemma {:induction false} OnnxImports()
    ensures ImportsOf([ONNX], false).Some? && VersionForDomain("", ImportsOf([ONNX], false).value) != -1
  {
    ImportsFit([ONNX], false);
    LastImportWins([ONNX], false, 0);
    var own := ImportsOf([ONNX], false).value;
    assert own.Keys == {ONNX.domain} && NoSentinel(own);
    assert ALIASES[1] in own;
    VersionFound("", own);
  }

  // A model that imports "" at -1 hides a function's import of "ai.onnx" from the nodes that spell the domain "": they
  // are accepted whatever the schemas say. If the function imports "" as well, the model's import is overwritten.
  lemma {:induction false} SentinelVersionHidesImports(model: Imports, f: Function, n: Node, registry: Registry)
    requires model.Keys == {""} && model[""] == -1 && f.opsetImports == [ONNX] && n.domain == ""
    ensures Merge(model, AllOpsets([f])).Some? && ImportsOf(f.opsetImports, false).Some?
    ensures CheckOpsetCompatibility(n, registry, ImportsOf(f.opsetImports, false).value,
                                    Merge(model, AllOpsets([f])).value).ModelLacksDomain?
    ensures !Hidden("", model, AllOpsets([f]) + [OpsetImport("", 13)])
  {
    assert AllOpsets([f]) == [ONNX] by {
      assert [f][..0] == [] && AllOpsets([]) == [];
    }
    assert OpsetImport("", 13) in AllOpsets([f]) + [OpsetImport("", 13)];
    OnnxImports();
    LacksDomainExactly(model, [f], registry, 0, n);
  }
}
