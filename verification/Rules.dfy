/** The lint rules that need no type resolution, and the runner. */
module LintRules {
  import opened Machine
  import opened Wrappers
  import opened Ttl
  import opened LintAst
  import opened LintParser
  import opened LintVisitor

  datatype FileModel = FileModel(decls: seq<StorageDecl>, fns: seq<FnStorage>)

  datatype Rule =
    | TemporaryCriticalType
    | LifecycleMismatch
    | MissingTtlExtension
    | InstanceStorageBloat
    | TemporaryTtlExceeded
    | PersistentTtlExceeded

  /** A finding about one chain; its place in the function stands for line and column. */
  datatype Finding = Finding(rule: Rule, chain: StorageChain)

  predicate IsWrite(name: string) {
    name == "set" || name == "update" || name == "try_update"
  }

  // ---------------------------------------------------------------------------
  // Facts about one chain
  // ---------------------------------------------------------------------------

  function Unreferenced(e: Expr): Expr {
    match e
    case Reference(inner) => Unreferenced(inner)
    case _ => e
  }

  function Uncalled(e: Expr): Expr {
    match e
    case Call(func, _) => Uncalled(func)
    case _ => e
  }

  /** The key a chain names: the last path segment of its first argument, behind references and then calls. */
  function NamedKey(chain: StorageChain): Option<string> {
    if chain.args == [] then None
    else
      var key := Uncalled(Unreferenced(chain.args[0]));
      if key.Path? && key.segments != [] then Some(key.segments[|key.segments| - 1]) else None
  }

  /** The key the rules go by; they have none for the instance. */
  function KeyVariant(chain: StorageChain): Option<string> {
    if chain.lifecycle == Instance then None else NamedKey(chain)
  }

  method FindKeyVariant(chain: StorageChain) returns (variant: Option<string>)
    ensures variant == KeyVariant(chain)
  {
    if chain.lifecycle == Instance || chain.args == [] {
      return None;
    }
    var expr := chain.args[0];
    while expr.Reference?
      invariant Unreferenced(expr) == Unreferenced(chain.args[0])
      decreases expr
    {
      expr := expr.inner;
    }
    while expr.Call?
      invariant Uncalled(expr) == Uncalled(Unreferenced(chain.args[0]))
      decreases expr
    {
      expr := expr.func;
    }
    variant := if expr.Path? && expr.segments != [] then Some(expr.segments[|expr.segments| - 1]) else None;
  }

  /** The first declaration of a variant. */
  function FindDecl(decls: seq<StorageDecl>, variant: string): Option<StorageDecl> {
    if decls == [] then None
    else if decls[0].variant == variant then Some(decls[0])
    else FindDecl(decls[1..], variant)
  }

  predicate Mismatched(decls: seq<StorageDecl>, chain: StorageChain) {
    && KeyVariant(chain).Some?
    && FindDecl(decls, KeyVariant(chain).value).Some?
    && FindDecl(decls, KeyVariant(chain).value).value.lifecycle != chain.lifecycle
  }

  predicate WritesEntry(chain: StorageChain) {
    chain.lifecycle != Instance && IsWrite(chain.called)
  }

  /** The literal extension target: the third argument, when it is an integer that fits 32 bits. */
  function LiteralTarget(chain: StorageChain): Option<u32> {
    if |chain.args| > 2 && chain.args[2].IntLit? && chain.args[2].value <= U32_MAX then Some(chain.args[2].value)
    else None
  }

  predicate TemporaryExceeds(chain: StorageChain) {
    && chain.lifecycle == Temporary && chain.called == "extend_ttl"
    && LiteralTarget(chain).Some? && LiteralTarget(chain).value > MAX_TEMP_TTL
  }

  predicate PersistentExceeds(chain: StorageChain) {
    && chain.lifecycle != Temporary && chain.called == "extend_ttl"
    && LiteralTarget(chain).Some? && LiteralTarget(chain).value > MAX_PERSISTENT_TTL
  }

  // ---------------------------------------------------------------------------
  // The rules as filters
  // ---------------------------------------------------------------------------

  function Flag(chains: seq<StorageChain>, rule: Rule, holds: StorageChain -> bool): seq<Finding> {
    if chains == [] then []
    else
      var n := |chains| - 1;
      Flag(chains[..n], rule, holds) + if holds(chains[n]) then [Finding(rule, chains[n])] else []
  }

  function FlagAll(fns: seq<FnStorage>, rule: Rule, holds: (FnStorage, StorageChain) -> bool): seq<Finding> {
    if fns == [] then []
    else
      var n := |fns| - 1;
      FlagAll(fns[..n], rule, holds) + Flag(fns[n].chains, rule, c => holds(fns[n], c))
  }

  function RuleTest(model: FileModel, rule: Rule): (FnStorage, StorageChain) -> bool {
    match rule
    case LifecycleMismatch => (f: FnStorage, c: StorageChain) => Mismatched(model.decls, c)
    case MissingTtlExtension => (f: FnStorage, c: StorageChain) => !f.hasTtlCall && WritesEntry(c)
    case TemporaryTtlExceeded => (f: FnStorage, c: StorageChain) => TemporaryExceeds(c)
    case PersistentTtlExceeded => (f: FnStorage, c: StorageChain) => PersistentExceeds(c)
    case _ => (f: FnStorage, c: StorageChain) => false
  }

  /** What a modelled rule finds, in source order. */
  function Findings(model: FileModel, rule: Rule): seq<Finding> {
    FlagAll(model.fns, rule, RuleTest(model, rule))
  }

  predicate IsModelled(rule: Rule) {
    rule.LifecycleMismatch? || rule.MissingTtlExtension? || rule.TemporaryTtlExceeded? || rule.PersistentTtlExceeded?
  }

  lemma {:induction false} FlaggedExactly(chains: seq<StorageChain>, rule: Rule, holds: StorageChain -> bool, c: StorageChain)
    ensures Finding(rule, c) in Flag(chains, rule, holds) <==> c in chains && holds(c)
    ensures forall f :: f in Flag(chains, rule, holds) ==> f.rule == rule
  {
    if chains != [] {
      var n := |chains| - 1;
      FlaggedExactly(chains[..n], rule, holds, c);
      assert chains == chains[..n] + [chains[n]];
    }
  }

  /** A chain is reported exactly when it is in some scanned function and the rule's test holds of it there. */
  lemma {:induction false} FoundExactly(fns: seq<FnStorage>, rule: Rule, holds: (FnStorage, StorageChain) -> bool,
                                        c: StorageChain)
    ensures Finding(rule, c) in FlagAll(fns, rule, holds) <==> exists f :: f in fns && c in f.chains && holds(f, c)
    ensures forall f :: f in FlagAll(fns, rule, holds) ==> f.rule == rule
  {
    if fns != [] {
      var n := |fns| - 1;
      FoundExactly(fns[..n], rule, holds, c);
      FlaggedExactly(fns[n].chains, rule, x => holds(fns[n], x), c);
      assert fns == fns[..n] + [fns[n]];
    }
  }

  // ---------------------------------------------------------------------------
  // The rule loops
  // ---------------------------------------------------------------------------

  lemma FlagStep(chains: seq<StorageChain>, i: nat, rule: Rule, holds: StorageChain -> bool)
    requires i < |chains|
    ensures Flag(chains[..i + 1], rule, holds)
         == Flag(chains[..i], rule, holds) + if holds(chains[i]) then [Finding(rule, chains[i])] else []
  {
    assert chains[..i + 1][..i] == chains[..i];
  }

  lemma FlagAllStep(fns: seq<FnStorage>, i: nat, rule: Rule, holds: (FnStorage, StorageChain) -> bool)
    requires i < |fns|
    ensures FlagAll(fns[..i + 1], rule, holds)
         == FlagAll(fns[..i], rule, holds) + Flag(fns[i].chains, rule, c => holds(fns[i], c))
  {
    assert fns[..i + 1][..i] == fns[..i];
  }

  method RunLifecycleMismatch(model: FileModel) returns (out: seq<Finding>)
    ensures out == Findings(model, LifecycleMismatch)
  {
    out := [];
    ghost var holds := RuleTest(model, LifecycleMismatch);
    for i := 0 to |model.fns|
      invariant out == FlagAll(model.fns[..i], LifecycleMismatch, holds)
    {
      var f := model.fns[i];
      ghost var before := out;
      ghost var here := c => holds(f, c);
      for j := 0 to |f.chains|
        invariant out == before + Flag(f.chains[..j], LifecycleMismatch, here)
      {
        FlagStep(f.chains, j, LifecycleMismatch, here);
        var variant := FindKeyVariant(f.chains[j]);
        if variant.Some? {
          var decl := FindDecl(model.decls, variant.value);
          if decl.Some? && decl.value.lifecycle != f.chains[j].lifecycle {
            out := out + [Finding(LifecycleMismatch, f.chains[j])];
          }
        }
      }
      assert f.chains[..|f.chains|] == f.chains;
      FlagAllStep(model.fns, i, LifecycleMismatch, holds);
    }
    assert model.fns[..|model.fns|] == model.fns;
  }

  method RunMissingTtlExtension(model: FileModel) returns (out: seq<Finding>)
    ensures out == Findings(model, MissingTtlExtension)
  {
    out := [];
    ghost var holds := RuleTest(model, MissingTtlExtension);
    for i := 0 to |model.fns|
      invariant out == FlagAll(model.fns[..i], MissingTtlExtension, holds)
    {
      var f := model.fns[i];
      ghost var before := out;
      ghost var here := c => holds(f, c);
      for j := 0 to |f.chains|
        invariant out == before + Flag(f.chains[..j], MissingTtlExtension, here)
      {
        FlagStep(f.chains, j, MissingTtlExtension, here);
        if WritesEntry(f.chains[j]) && !f.hasTtlCall {
          out := out + [Finding(MissingTtlExtension, f.chains[j])];
        }
      }
      assert f.chains[..|f.chains|] == f.chains;
      FlagAllStep(model.fns, i, MissingTtlExtension, holds);
    }
    assert model.fns[..|model.fns|] == model.fns;
  }

  /** Both TTL rules walk the same way, each with its own lifecycle and maximum. */
  method RunTtlExceeded(model: FileModel, rule: Rule) returns (out: seq<Finding>)
    requires rule == TemporaryTtlExceeded || rule == PersistentTtlExceeded
    ensures out == Findings(model, rule)
  {
    out := [];
    ghost var holds := RuleTest(model, rule);
    for i := 0 to |model.fns|
      invariant out == FlagAll(model.fns[..i], rule, holds)
    {
      var f := model.fns[i];
      ghost var before := out;
      ghost var here := c => holds(f, c);
      for j := 0 to |f.chains|
        invariant out == before + Flag(f.chains[..j], rule, here)
      {
        FlagStep(f.chains, j, rule, here);
        var chain := f.chains[j];
        if (chain.lifecycle == Temporary) != (rule == TemporaryTtlExceeded) || chain.called != "extend_ttl" {
          continue;
        }
        var target := LiteralTarget(chain);
        if target.Some? && target.value > MaxTtl(chain.lifecycle) {
          out := out + [Finding(rule, chain)];
        }
      }
      assert f.chains[..|f.chains|] == f.chains;
      FlagAllStep(model.fns, i, rule, holds);
    }
    assert model.fns[..|model.fns|] == model.fns;
  }

  // ---------------------------------------------------------------------------
  // Running all rules
  // ---------------------------------------------------------------------------

  const RULES: seq<Rule> := [
    TemporaryCriticalType, LifecycleMismatch, MissingTtlExtension, InstanceStorageBloat, TemporaryTtlExceeded,
    PersistentTtlExceeded]

  /** What each rule finds; the two rules that resolve value types are given from outside. */
  function Reported(model: FileModel, rule: Rule, resolved: Rule -> seq<Finding>): seq<Finding> {
    if IsModelled(rule) then Findings(model, rule) else resolved(rule)
  }

  function AllReported(model: FileModel, rules: seq<Rule>, ignored: set<Rule>, resolved: Rule -> seq<Finding>): seq<Finding> {
    if rules == [] then []
    else
      var n := |rules| - 1;
      AllReported(model, rules[..n], ignored, resolved) +
      if rules[n] in ignored then [] else Reported(model, rules[n], resolved)
  }

  method RunAll(model: FileModel, ignored: set<Rule>, resolved: Rule -> seq<Finding>) returns (out: seq<Finding>)
    ensures out == AllReported(model, RULES, ignored, resolved)
  {
    out := [];
    for i := 0 to |RULES|
      invariant out == AllReported(model, RULES[..i], ignored, resolved)
    {
      assert RULES[..i + 1][..i] == RULES[..i];
      var rule := RULES[i];
      if rule in ignored {
        continue;
      }
      var findings;
      match rule {
        case LifecycleMismatch => findings := RunLifecycleMismatch(model);
        case MissingTtlExtension => findings := RunMissingTtlExtension(model);
        case TemporaryTtlExceeded => findings := RunTtlExceeded(model, rule);
        case PersistentTtlExceeded => findings := RunTtlExceeded(model, rule);
        case _ => findings := resolved(rule);
      }
      out := out + findings;
    }
    assert RULES[..|RULES|] == RULES;
  }

  function Without(findings: seq<Finding>, ignored: set<Rule>): seq<Finding> {
    if findings == [] then []
    else
      var n := |findings| - 1;
      Without(findings[..n], ignored) + if findings[n].rule in ignored then [] else [findings[n]]
  }

  lemma {:induction false} WithoutConcat(a: seq<Finding>, b: seq<Finding>, ignored: set<Rule>)
    ensures Without(a + b, ignored) == Without(a, ignored) + Without(b, ignored)
  {
    if b == [] {
      assert a + b == a;
    } else {
      var n := |b| - 1;
      WithoutConcat(a, b[..n], ignored);
      assert (a + b)[..|a + b| - 1] == a + b[..n];
    }
  }

  lemma {:induction false} WithoutOne(findings: seq<Finding>, rule: Rule, ignored: set<Rule>)
    requires forall f :: f in findings ==> f.rule == rule
    ensures Without(findings, ignored) == if rule in ignored then [] else findings
  {
    if findings != [] {
      var n := |findings| - 1;
      assert findings[n] in findings;
      WithoutOne(findings[..n], rule, ignored);
      assert findings == findings[..n] + [findings[n]];
    }
  }

  /** Ignoring rules leaves out exactly their findings and keeps the others in their order. */
  lemma {:induction false} IgnoringIsFiltering(model: FileModel, rules: seq<Rule>, ignored: set<Rule>,
                                               resolved: Rule -> seq<Finding>)
    requires forall rule, f :: f in resolved(rule) ==> f.rule == rule
    ensures AllReported(model, rules, ignored, resolved) == Without(AllReported(model, rules, {}, resolved), ignored)
  {
    if rules != [] {
      var n := |rules| - 1;
      IgnoringIsFiltering(model, rules[..n], ignored, resolved);
      var last := Reported(model, rules[n], resolved);
      if IsModelled(rules[n]) {
        var any := StorageChain(Temporary, "", [], [], false);
        FoundExactly(model.fns, rules[n], RuleTest(model, rules[n]), any);
      }
      WithoutConcat(AllReported(model, rules[..n], {}, resolved), last, ignored);
      WithoutOne(last, rules[n], ignored);
    }
  }

  // ---------------------------------------------------------------------------
  // Nothing lost, nothing added, in order
  // ---------------------------------------------------------------------------

  /** Without ignored rules the output is what each of the six rules finds, in their order. */
  lemma RulesInOrder(model: FileModel, resolved: Rule -> seq<Finding>)
    ensures AllReported(model, RULES, {}, resolved) ==
      resolved(TemporaryCriticalType) + Findings(model, LifecycleMismatch) + Findings(model, MissingTtlExtension) +
      resolved(InstanceStorageBloat) + Findings(model, TemporaryTtlExceeded) + Findings(model, PersistentTtlExceeded)
  {
    hide Findings;
    assert RULES[..6] == RULES && RULES[..0] == [];
    assert RULES[..6][..5] == RULES[..5] && RULES[..5][..4] == RULES[..4] && RULES[..4][..3] == RULES[..3];
    assert RULES[..3][..2] == RULES[..2] && RULES[..2][..1] == RULES[..1] && RULES[..1][..0] == [];
    assert AllReported(model, RULES[..1], {}, resolved) == resolved(TemporaryCriticalType);
    assert AllReported(model, RULES[..2], {}, resolved)
        == resolved(TemporaryCriticalType) + Findings(model, LifecycleMismatch);
    assert AllReported(model, RULES[..3], {}, resolved)
        == AllReported(model, RULES[..2], {}, resolved) + Findings(model, MissingTtlExtension);
    assert AllReported(model, RULES[..4], {}, resolved)
        == AllReported(model, RULES[..3], {}, resolved) + resolved(InstanceStorageBloat);
    assert AllReported(model, RULES[..5], {}, resolved)
        == AllReported(model, RULES[..4], {}, resolved) + Findings(model, TemporaryTtlExceeded);
  }

  /** What a rule finds is tagged with it. */
  lemma FindingsAreTagged(model: FileModel, rule: Rule)
    ensures forall f :: f in Findings(model, rule) ==> f.rule == rule
  {
    var any := StorageChain(Temporary, "", [], [], false);
    FoundExactly(model.fns, rule, RuleTest(model, rule), any);
  }

  lemma {:induction false} InOutput(model: FileModel, rules: seq<Rule>, ignored: set<Rule>,
                                    resolved: Rule -> seq<Finding>, f: Finding)
    requires forall rule, g :: g in resolved(rule) ==> g.rule == rule
    ensures f in AllReported(model, rules, ignored, resolved) <==>
      f.rule in rules && f.rule !in ignored && f in Reported(model, f.rule, resolved)
  {
    if rules != [] {
      var n := |rules| - 1;
      InOutput(model, rules[..n], ignored, resolved, f);
      FindingsAreTagged(model, rules[n]);
      assert rules == rules[..n] + [rules[n]];
      hide Findings;
    }
  }

  /** The runner reports exactly what each rule that is not ignored finds. */
  lemma RunsEveryRule(model: FileModel, ignored: set<Rule>, resolved: Rule -> seq<Finding>, f: Finding)
    requires forall rule, g :: g in resolved(rule) ==> g.rule == rule
    ensures f in AllReported(model, RULES, ignored, resolved) <==>
      f.rule !in ignored && f in Reported(model, f.rule, resolved)
  {
    InOutput(model, RULES, ignored, resolved, f);
    assert RULES[0] == TemporaryCriticalType && RULES[1] == LifecycleMismatch && RULES[2] == MissingTtlExtension;
    assert RULES[3] == InstanceStorageBloat && RULES[4] == TemporaryTtlExceeded && RULES[5] == PersistentTtlExceeded;
    hide Reported;
  }

  /** `at` lists the chains that fail, in order and once each; the findings are these. */
  ghost predicate FlagsInOrder(at: seq<nat>, out: seq<Finding>, chains: seq<StorageChain>, rule: Rule,
                               holds: StorageChain -> bool)
  {
    && |at| == |out|
    && (forall i, j :: 0 <= i < j < |at| ==> at[i] < at[j])
    && (forall i :: 0 <= i < |at| ==>
          at[i] < |chains| && holds(chains[at[i]]) && out[i] == Finding(rule, chains[at[i]]))
    && (forall k :: 0 <= k < |chains| && holds(chains[k]) ==> k in at)
  }

  lemma FlagsNoMore(at: seq<nat>, out: seq<Finding>, chains: seq<StorageChain>, rule: Rule, holds: StorageChain -> bool)
    requires chains != [] && FlagsInOrder(at, out, chains[..|chains| - 1], rule, holds)
    requires !holds(chains[|chains| - 1])
    ensures FlagsInOrder(at, out, chains, rule, holds)
  {
    var n := |chains| - 1;
    forall k | 0 <= k < |chains| && holds(chains[k])
      ensures k in at
    {
      assert chains[..n][k] == chains[k];
    }
  }

  lemma FlagsOneMore(at: seq<nat>, out: seq<Finding>, chains: seq<StorageChain>, rule: Rule, holds: StorageChain -> bool)
    requires chains != [] && FlagsInOrder(at, out, chains[..|chains| - 1], rule, holds)
    requires holds(chains[|chains| - 1])
    ensures
      var n := |chains| - 1;
      FlagsInOrder(at + [n], out + [Finding(rule, chains[n])], chains, rule, holds)
  {
    var n := |chains| - 1;
    var at' := at + [n];
    forall k | 0 <= k < |chains| && holds(chains[k])
      ensures k in at'
    {
      if k < n {
        assert chains[..n][k] == chains[k];
        assert k in at;
      } else {
        assert at'[|at|] == k;
      }
    }
  }

  /** Within a function the findings follow the chains. */
  lemma {:induction false} FindingsFollowChains(chains: seq<StorageChain>, rule: Rule, holds: StorageChain -> bool)
      returns (at: seq<nat>)
    ensures FlagsInOrder(at, Flag(chains, rule, holds), chains, rule, holds)
  {
    if chains == [] {
      at := [];
    } else {
      hide FlagsInOrder;
      var n := |chains| - 1;
      at := FindingsFollowChains(chains[..n], rule, holds);
      if holds(chains[n]) {
        FlagsOneMore(at, Flag(chains[..n], rule, holds), chains, rule, holds);
        at := at + [n];
      } else {
        FlagsNoMore(at, Flag(chains[..n], rule, holds), chains, rule, holds);
      }
    }
  }

  /** Over several functions the findings follow the functions. */
  lemma {:induction false} FindingsFollowFunctions(a: seq<FnStorage>, b: seq<FnStorage>, rule: Rule,
                                                   holds: (FnStorage, StorageChain) -> bool)
    ensures FlagAll(a + b, rule, holds) == FlagAll(a, rule, holds) + FlagAll(b, rule, holds)
    ensures forall f :: FlagAll([f], rule, holds) == Flag(f.chains, rule, c => holds(f, c))
  {
    hide Flag;
    forall f
      ensures FlagAll([f], rule, holds) == Flag(f.chains, rule, c => holds(f, c))
    {
      assert [f][..0] == [];
    }
    if b == [] {
      assert a + b == a;
    } else {
      var n := |b| - 1;
      FindingsFollowFunctions(a, b[..n], rule, holds);
      assert (a + b)[..|a + b| - 1] == a + b[..n];
    }
  }
}
