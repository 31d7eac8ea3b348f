/** What the linter's findings mean for the code and the schema they are about. */
module LintMeaning {
  import opened Machine
  import opened Wrappers
  import opened Ttl
  import opened SchemaTokens
  import opened SchemaGrammar
  import opened MacroParser
  import opened LintAst
  import opened LintParser
  import opened LintVisitor
  import opened LintRules
  import opened SchemaAgreement

  /** The model of a file with these function bodies. */
  function Scanned(decls: seq<StorageDecl>, bodies: seq<Expr>): FileModel {
    FileModel(decls, seq(|bodies|, i requires 0 <= i < |bodies| =>
                               FnStorage(Collect(bodies[i], [], false), MentionsTtl(bodies[i]))))
  }

  /** A raw storage write of a temporary or persistent entry, somewhere in the body. */
  ghost predicate WritesIn(body: Expr, c: StorageChain) {
    WritesEntry(c) && IsChainOf(body, c)
  }

  /**
   * `missing_ttl_extension` reports a chain exactly when it is a raw write in some function that manages no TTL
   * anywhere, at any depth.
   */
  lemma MissingTtlMeans(decls: seq<StorageDecl>, bodies: seq<Expr>, c: StorageChain)
    ensures Finding(MissingTtlExtension, c) in Findings(Scanned(decls, bodies), MissingTtlExtension) <==>
      exists i :: 0 <= i < |bodies| && WritesIn(bodies[i], c) && !ManagesTtlIn(bodies[i])
  {
    var model := Scanned(decls, bodies);
    FoundExactly(model.fns, MissingTtlExtension, RuleTest(model, MissingTtlExtension), c);
    forall i | 0 <= i < |bodies|
      ensures WritesIn(bodies[i], c) && !ManagesTtlIn(bodies[i]) <==> ReportsIn(model.fns[i], c)
    {
      BodyReports(bodies[i], c);
    }
    hide WritesIn, ManagesTtlIn, Collect, MentionsTtl;
    if i :| 0 <= i < |bodies| && WritesIn(bodies[i], c) && !ManagesTtlIn(bodies[i]) {
      assert model.fns[i] in model.fns;
    }
  }

  predicate ReportsIn(f: FnStorage, c: StorageChain) {
    c in f.chains && !f.hasTtlCall && WritesEntry(c)
  }

  lemma BodyReports(body: Expr, c: StorageChain)
    ensures WritesIn(body, c) && !ManagesTtlIn(body) <==>
      ReportsIn(FnStorage(Collect(body, [], false), MentionsTtl(body)), c)
  {
    ChainsAreExact(body, c);
    TtlCallIsExact(body);
  }

  // ---------------------------------------------------------------------------
  // Rules that look at single chains
  // ---------------------------------------------------------------------------

  ghost predicate InSomeBody(bodies: seq<Expr>, c: StorageChain) {
    exists i :: 0 <= i < |bodies| && IsChainOf(bodies[i], c)
  }

  /** The chain is among what the rule reports for these functions. */
  predicate IsReported(decls: seq<StorageDecl>, bodies: seq<Expr>, rule: Rule, c: StorageChain) {
    Finding(rule, c) in Findings(Scanned(decls, bodies), rule)
  }

  predicate TestsChains(rule: Rule) {
    rule == LifecycleMismatch || rule == TemporaryTtlExceeded || rule == PersistentTtlExceeded
  }

  predicate ChainFails(decls: seq<StorageDecl>, rule: Rule, c: StorageChain)
    requires TestsChains(rule)
  {
    match rule
    case LifecycleMismatch => Mismatched(decls, c)
    case TemporaryTtlExceeded => TemporaryExceeds(c)
    case PersistentTtlExceeded => PersistentExceeds(c)
  }

  /** These rules report exactly the chains of the bodies that fail their test, at any depth. */
  lemma ReportedExactly(decls: seq<StorageDecl>, bodies: seq<Expr>, rule: Rule, c: StorageChain)
    requires TestsChains(rule)
    ensures IsReported(decls, bodies, rule, c) <==> InSomeBody(bodies, c) && ChainFails(decls, rule, c)
  {
    var model := Scanned(decls, bodies);
    FoundExactly(model.fns, rule, RuleTest(model, rule), c);
    forall i | 0 <= i < |bodies|
      ensures IsChainOf(bodies[i], c) <==> c in model.fns[i].chains
    {
      ChainsAreExact(bodies[i], c);
    }
    hide IsChainOf, Collect, MentionsTtl, Mismatched, TemporaryExceeds, PersistentExceeds;
    if i :| 0 <= i < |bodies| && IsChainOf(bodies[i], c) {
      assert model.fns[i] in model.fns;
    }
  }

  /** A storage call written out: `env.storage().<lifecycle>().<called>(args)`. */
  function RawCall(lifecycle: Lifecycle, called: string, args: seq<Expr>): Expr {
    MethodCall(MethodCall(MethodCall(Path(["env"]), "storage", []), LifecycleWord(lifecycle), []), called, args)
  }

  /** A storage call anywhere in a body is a chain of it. */
  lemma RawCallIsChain(bodies: seq<Expr>, i: nat, path: seq<nat>, lifecycle: Lifecycle, called: string, args: seq<Expr>)
      returns (c: StorageChain)
    requires i < |bodies| && NodeAt(bodies[i], path) == Some(RawCall(lifecycle, called, args)) && IsTerminal(called)
    ensures InSomeBody(bodies, c)
    ensures c.lifecycle == lifecycle && c.called == called && c.args == args && c.site == path
  {
    var call := RawCall(lifecycle, called, args);
    var names := ReceiverNames(call.receiver);
    assert ReceiverNames(call.receiver.receiver) == ["storage"] + ReceiverNames(Path(["env"])) == ["storage"];
    assert names == [LifecycleWord(lifecycle), "storage"];
    assert FirstLifecycle(names) == Some(lifecycle);
    c := ChainOf(call, [] + path, UnderLoop(bodies[i], path));
    assert [] + path == path;
    assert RecordsAt(c, bodies[i], [], false, path);
  }

  // ---------------------------------------------------------------------------
  // Lifecycle mismatches
  // ---------------------------------------------------------------------------

  function FindAccessor(accessors: seq<Accessor>, name: string): Option<Accessor> {
    if accessors == [] then None
    else if accessors[0].name == name then Some(accessors[0])
    else FindAccessor(accessors[1..], name)
  }

  function FindEntry(entries: seq<Entry>, name: string): Option<Entry> {
    if entries == [] then None
    else if entries[0].name == name then Some(entries[0])
    else FindEntry(entries[1..], name)
  }

  /** The entry of the schema whose key the chain names. */
  function NamedEntry(ts: seq<Token>, c: StorageChain): Option<Entry>
    requires Entries(ts).Some?
  {
    if NamedKey(c).Some? then FindEntry(Entries(ts).value, NamedKey(c).value) else None
  }

  /** What the rule is documented to flag: a key of the schema, accessed through another lifecycle than it lives in. */
  predicate InAnotherSpace(ts: seq<Token>, c: StorageChain)
    requires Expand(ts).Ok?
  {
    && NamedKey(c).Some?
    && FindAccessor(Expand(ts).value, NamedKey(c).value).Some?
    && FindAccessor(Expand(ts).value, NamedKey(c).value).value.lifecycle != c.lifecycle
  }

  lemma {:induction false} FoundSideBySide(entries: seq<Entry>, decls: seq<StorageDecl>, accessors: seq<Accessor>,
                                           name: string)
    requires |entries| == |decls| == |accessors|
    requires forall i :: 0 <= i < |entries| ==> ReadSideBySide(entries[i], decls[i], accessors[i])
    ensures match FindEntry(entries, name)
            case None => FindDecl(decls, name).None? && FindAccessor(accessors, name).None?
            case Some(entry) =>
              && FindDecl(decls, name).Some? && FindAccessor(accessors, name).Some?
              && FindDecl(decls, name).value.lifecycle == PlainOrPersistent(entry.attrs)
              && LastNamed(entry.attrs) == Some(FindAccessor(accessors, name).value.lifecycle)
  {
    hide LastNamed, PlainOrPersistent, ReadAlike, LifecyclesAlike, Normalize;
    if entries != [] {
      FoundSideBySide(entries[1..], decls[1..], accessors[1..], name);
    }
  }

  /** What the rule's test and its documentation come to, in terms of the attributes of the entry that is named. */
  lemma MismatchedBy(ts: seq<Token>, c: StorageChain)
    requires Expand(ts).Ok?
    ensures match NamedEntry(ts, c)
            case None => !Mismatched(StorageDecls(ts), c) && !InAnotherSpace(ts, c)
            case Some(entry) =>
              && LastNamed(entry.attrs).Some?
              && (InAnotherSpace(ts, c) <==> LastNamed(entry.attrs).value != c.lifecycle)
              && (Mismatched(StorageDecls(ts), c) <==>
                    c.lifecycle != Instance && PlainOrPersistent(entry.attrs) != c.lifecycle)
  {
    hide LastNamed, PlainOrPersistent, Entries, StorageDecls, NamedKey, ReadSideBySide;
    ParsersAgreeExactly(ts);
    if NamedKey(c).Some? {
      FoundSideBySide(Entries(ts).value, StorageDecls(ts), Expand(ts).value, NamedKey(c).value);
    }
  }

  /**
   * For every accepted schema and chain, exactly when the verdict is the documented one. For a chain that names no
   * entry, always; for an access to the instance, when the entry lives there; for any other, when the entry's
   * lifecycle is read alike, or the access goes through neither of the two that are read.
   */
  lemma MismatchRightExactly(ts: seq<Token>, c: StorageChain)
    requires Expand(ts).Ok?
    ensures (Mismatched(StorageDecls(ts), c) <==> InAnotherSpace(ts, c)) <==>
      match NamedEntry(ts, c)
      case None => true
      case Some(entry) =>
        if c.lifecycle == Instance then LastNamed(entry.attrs) == Some(Instance)
        else LifecyclesAlike(entry.attrs) ||
             (c.lifecycle != PlainOrPersistent(entry.attrs) && Some(c.lifecycle) != LastNamed(entry.attrs))
  {
    hide Entries, StorageDecls, NamedKey, Mismatched, InAnotherSpace, PlainOrPersistent, LastNamed;
    MismatchedBy(ts, c);
  }

  /** The verdict on every access outside the instance to a key of this name is the documented one. */
  ghost predicate RightOutsideInstance(ts: seq<Token>, name: string)
    requires Expand(ts).Ok?
  {
    forall c: StorageChain | NamedKey(c) == Some(name) && c.lifecycle != Instance ::
      Mismatched(StorageDecls(ts), c) <==> InAnotherSpace(ts, c)
  }

  ghost predicate RightEverywhere(ts: seq<Token>, name: string)
    requires Expand(ts).Ok?
  {
    forall c: StorageChain | NamedKey(c) == Some(name) ::
      Mismatched(StorageDecls(ts), c) <==> InAnotherSpace(ts, c)
  }

  /** An access to the key of this name. */
  function AccessTo(name: string, lifecycle: Lifecycle): (c: StorageChain)
    ensures c.lifecycle == lifecycle && NamedKey(c) == Some(name)
  {
    StorageChain(lifecycle, "set", [Path([name])], [], false)
  }

  /**
   * Outside the instance the rule is right about a name exactly when the first entry of that name has its lifecycle
   * read alike. With accesses to the instance it is right only about entries that live there.
   */
  lemma MismatchRightByName(ts: seq<Token>, name: string)
    requires Expand(ts).Ok?
    ensures
      var entry := FindEntry(Entries(ts).value, name);
      && (RightOutsideInstance(ts, name) <==> entry.None? || LifecyclesAlike(entry.value.attrs))
      && (RightEverywhere(ts, name) <==>
            entry.None? || (LifecyclesAlike(entry.value.attrs) && LastNamed(entry.value.attrs) == Some(Instance)))
  {
    hide Entries, StorageDecls, NamedKey, Mismatched, InAnotherSpace, LastNamed;
    hide FirstPlain;
    forall c: StorageChain | NamedKey(c) == Some(name)
      ensures match FindEntry(Entries(ts).value, name)
              case None => !Mismatched(StorageDecls(ts), c) && !InAnotherSpace(ts, c)
              case Some(entry) =>
                && LastNamed(entry.attrs).Some?
                && (InAnotherSpace(ts, c) <==> LastNamed(entry.attrs).value != c.lifecycle)
                && (Mismatched(StorageDecls(ts), c) <==>
                      c.lifecycle != Instance && PlainOrPersistent(entry.attrs) != c.lifecycle)
    {
      MismatchedBy(ts, c);
    }
    var temporary, persistent := AccessTo(name, Temporary), AccessTo(name, Persistent);
    var inInstance := AccessTo(name, Instance);
    hide FindEntry;
  }

  /**
   * When the lifecycle of the entry a chain names is read alike, the rule reports it exactly when it is a chain of some
   * body, outside the instance, that goes through another lifecycle than the entry lives in.
   */
  lemma MismatchMeans(ts: seq<Token>, bodies: seq<Expr>, c: StorageChain)
    requires Expand(ts).Ok?
    requires NamedEntry(ts, c).Some? ==> LifecyclesAlike(NamedEntry(ts, c).value.attrs)
    ensures IsReported(StorageDecls(ts), bodies, LifecycleMismatch, c) <==>
      InSomeBody(bodies, c) && c.lifecycle != Instance && InAnotherSpace(ts, c)
  {
    hide Entries, StorageDecls, NamedKey, Mismatched, InAnotherSpace, PlainOrPersistent, LastNamed, Findings;
    ReportedExactly(StorageDecls(ts), bodies, LifecycleMismatch, c);
    MismatchedBy(ts, c);
  }

  /**
   * `#[storage(persistent)] Balance(Address) -> i128,` with `env.storage().instance().set(&StorageKey::Balance(user),
   * &amount)` anywhere in a body: another key space, as documented, and not reported.
   */
  lemma InstanceAccessIsMissed(bodies: seq<Expr>, i: nat, path: seq<nat>) returns (ts: seq<Token>, c: StorageChain)
    requires
      var key := Reference(Call(Path(["StorageKey", "Balance"]), [Path(["user"])]));
      i < |bodies| && NodeAt(bodies[i], path) == Some(RawCall(Instance, "set", [key, Reference(Path(["amount"]))]))
    ensures
      var persistent := Attr(Attribute("storage", Args([Ident("persistent")])));
      ts == [persistent, Ident("Balance"), Parens([Ident("Address")]), Arrow, Ident("i128"), Comma]
    ensures Expand(ts).Ok? && Expand(ts).value[0].name == "Balance" && Expand(ts).value[0].lifecycle == Persistent
    ensures InSomeBody(bodies, c) && c.site == path && InAnotherSpace(ts, c)
    ensures !IsReported(StorageDecls(ts), bodies, LifecycleMismatch, c)
  {
    var key := Reference(Call(Path(["StorageKey", "Balance"]), [Path(["user"])]));
    var attr := Attribute("storage", Args([Ident("persistent")]));
    ts := [Attr(attr), Ident("Balance"), Parens([Ident("Address")]), Arrow, Ident("i128"), Comma];
    c := RawCallIsChain(bodies, i, path, Instance, "set", [key, Reference(Path(["amount"]))]);
    assert NamedKey(c) == Some("Balance");
    hide NamedKey, NodeAt, RawCall;
    BalanceIsPersistent(ts);
    ReportedExactly(StorageDecls(ts), bodies, LifecycleMismatch, c);
  }

  lemma BalanceIsPersistent(ts: seq<Token>)
    requires
      var persistent := Attr(Attribute("storage", Args([Ident("persistent")])));
      ts == [persistent, Ident("Balance"), Parens([Ident("Address")]), Arrow, Ident("i128"), Comma]
    ensures Expand(ts).Ok? && |Expand(ts).value| == 1
    ensures Expand(ts).value[0].name == "Balance" && Expand(ts).value[0].lifecycle == Persistent
  {
    var attr := Attribute("storage", Args([Ident("persistent")]));
    var written := Written([attr], "Balance", [Ident("Address")], Ident("i128"));
    assert [attr][1..] == [] && SpellAttrs([attr]) == [Attr(attr)];
    assert [written][1..] == [] && SpellEntries([written]) == SpellEntry(written) == ts;
    EntriesReadBack([written]);
    assert [Ident("persistent")][1..] == [];
    assert Options([Ident("persistent")]) == Ok(NO_OPTIONS.(lifecycle := Some(Persistent)));
    assert [attr][..0] == [];
    assert Merge([]) == Ok(NOTHING_MERGED);
    assert AccessorsOf([]) == Ok([]);
  }

  /**
   * Where the schema is misread, `env.storage().temporary().<called>(StorageKey::Nonce)` anywhere in a body, the right
   * access to a temporary entry, is reported as a mismatch.
   */
  lemma MisreadSchemaRaisesFalseAlarm(policy: string, called: string, bodies: seq<Expr>, i: nat, path: seq<nat>)
      returns (c: StorageChain)
    requires i < |bodies| && IsTerminal(called)
    requires NodeAt(bodies[i], path) == Some(RawCall(Temporary, called, [Path(["StorageKey", "Nonce"])]))
    ensures
      var attr := Attribute("storage", Args([Ident("temporary"), Comma, Ident("policy"), Equals, ExprRun(policy)]));
      var ts := [Attr(attr), Ident("Nonce"), Parens([Ident("Address")]), Arrow, Ident("u64"), Comma];
      && Expand(ts).Ok? && NamedKey(c) == Some("Nonce") && !InAnotherSpace(ts, c)
      && IsReported(StorageDecls(ts), bodies, LifecycleMismatch, c)
    ensures InSomeBody(bodies, c) && c.site == path
  {
    c := RawCallIsChain(bodies, i, path, Temporary, called, [Path(["StorageKey", "Nonce"])]);
    assert NamedKey(c) == Some("Nonce");
    hide NamedKey, NodeAt, RawCall, InSomeBody, IsTerminal;
    PolicyBesideLifecycleIsMisread(policy);
    var attr := Attribute("storage", Args([Ident("temporary"), Comma, Ident("policy"), Equals, ExprRun(policy)]));
    var ts := [Attr(attr), Ident("Nonce"), Parens([Ident("Address")]), Arrow, Ident("u64"), Comma];
    ReportedExactly(StorageDecls(ts), bodies, LifecycleMismatch, c);
  }

  // ---------------------------------------------------------------------------
  // Extensions beyond the maximum
  // ---------------------------------------------------------------------------

  /** The argument at this position is an integer literal, of 32 bits, above the maximum. */
  predicate AsksBeyond(c: StorageChain, position: nat, maximum: u32) {
    position < |c.args| && c.args[position].IntLit? && maximum < c.args[position].value <= U32_MAX
  }

  /** The two rules report exactly the extensions in the bodies, at any depth, whose third argument is too large. */
  lemma TtlExceededMeans(decls: seq<StorageDecl>, bodies: seq<Expr>, c: StorageChain)
    ensures IsReported(decls, bodies, PersistentTtlExceeded, c) <==>
      && InSomeBody(bodies, c) && c.called == "extend_ttl" && c.lifecycle != Temporary
      && AsksBeyond(c, 2, MAX_PERSISTENT_TTL)
    ensures IsReported(decls, bodies, TemporaryTtlExceeded, c) <==>
      && InSomeBody(bodies, c) && c.called == "extend_ttl" && c.lifecycle == Temporary
      && AsksBeyond(c, 2, MAX_TEMP_TTL)
  {
    hide Findings, InSomeBody;
    ReportedExactly(decls, bodies, PersistentTtlExceeded, c);
    ReportedExactly(decls, bodies, TemporaryTtlExceeded, c);
  }

  /** One of the TTL rules reports a literal extension exactly when the storage library would clamp its target. */
  lemma TtlExceededMeansClamped(decls: seq<StorageDecl>, bodies: seq<Expr>, c: StorageChain, threshold: u32)
    requires InSomeBody(bodies, c) && c.called == "extend_ttl" && LiteralTarget(c).Some?
    ensures
      var target := LiteralTarget(c).value;
      IsReported(decls, bodies, PersistentTtlExceeded, c) || IsReported(decls, bodies, TemporaryTtlExceeded, c) <==>
      TtlPolicy(threshold, target).ClampedFor(c.lifecycle).extendTo < target
  {
    hide IsReported, InSomeBody;
    TtlExceededMeans(decls, bodies, c);
    match c.lifecycle {
      case Temporary =>
      case Persistent =>
      case Instance =>
    }
  }

  /**
   * The documentation has `instance().extend_ttl(threshold, extend_to)` checked against the maximum too. There the
   * target is the second argument, but the third is looked at, so a call with its two arguments is never reported, and
   * the verdict is the documented one exactly when there is nothing to report. (A call of another arity is judged
   * rightly when its second and third argument are both beyond the maximum or neither is.)
   */
  lemma InstanceCheckRightExactly(decls: seq<StorageDecl>, bodies: seq<Expr>, c: StorageChain)
    requires InSomeBody(bodies, c) && c.lifecycle == Instance && c.called == "extend_ttl"
    ensures |c.args| == 2 ==>
      var documented := AsksBeyond(c, 1, MAX_PERSISTENT_TTL);
      && !IsReported(decls, bodies, PersistentTtlExceeded, c)
      && ((IsReported(decls, bodies, PersistentTtlExceeded, c) <==> documented) <==> !documented)
    ensures |c.args| != 2 ==>
      var documented := AsksBeyond(c, 1, MAX_PERSISTENT_TTL);
      (IsReported(decls, bodies, PersistentTtlExceeded, c) <==> documented) <==>
      (documented <==> AsksBeyond(c, 2, MAX_PERSISTENT_TTL))
  {
    hide IsReported, InSomeBody;
    TtlExceededMeans(decls, bodies, c);
  }

  /** `env.storage().instance().extend_ttl(t, 7000000)` anywhere in a body: beyond the maximum, and not reported. */
  lemma InstanceExtensionIsMissed(decls: seq<StorageDecl>, bodies: seq<Expr>, i: nat, path: seq<nat>)
      returns (c: StorageChain)
    requires i < |bodies|
    requires NodeAt(bodies[i], path) == Some(RawCall(Instance, "extend_ttl", [Path(["t"]), IntLit(7_000_000)]))
    ensures InSomeBody(bodies, c) && c.site == path && c.lifecycle == Instance && c.called == "extend_ttl"
    ensures AsksBeyond(c, 1, MAX_PERSISTENT_TTL)
    ensures !IsReported(decls, bodies, PersistentTtlExceeded, c) && !IsReported(decls, bodies, TemporaryTtlExceeded, c)
  {
    c := RawCallIsChain(bodies, i, path, Instance, "extend_ttl", [Path(["t"]), IntLit(7_000_000)]);
    hide IsReported, InSomeBody, NodeAt, RawCall;
    TtlExceededMeans(decls, bodies, c);
  }
}
