/** What the linter looks at, written out as code: call chains, loops, TTL management, keys and writes. */
module LintScope {
  import opened Wrappers
  import opened Ttl
  import opened SchemaTokens
  import opened SchemaGrammar
  import opened LintAst
  import opened LintParser
  import opened LintVisitor
  import opened LintRules
  import opened LintMeaning

  // ---------------------------------------------------------------------------
  // Call chains
  // ---------------------------------------------------------------------------

  /** A link of a call chain: `.name(args)`, or a call of what comes before it. */
  datatype Link = Method(name: string, args: seq<Expr>) | Invoked(args: seq<Expr>)

  /** The chain with these links on a root, the outermost link first. */
  function Chained(links: seq<Link>, root: Expr): Expr {
    if links == [] then root
    else
      match links[0]
      case Method(name, args) => MethodCall(Chained(links[1..], root), name, args)
      case Invoked(args) => Call(Chained(links[1..], root), args)
  }

  /** The method names of the links, outermost first. */
  function NamesOn(links: seq<Link>): seq<string> {
    if links == [] then []
    else (if links[0].Method? then [links[0].name] else []) + NamesOn(links[1..])
  }

  lemma {:induction false} NamesAreRead(links: seq<Link>, root: Expr)
    requires !root.MethodCall? && !root.Call?
    ensures ReceiverNames(Chained(links, root)) == NamesOn(links)
  {
    if links != [] {
      NamesAreRead(links[1..], root);
    }
  }

  /** The lifecycle word nearest the end of the chain counts. */
  ghost predicate NamesLifecycle(names: seq<string>, lifecycle: Lifecycle) {
    exists i :: 0 <= i < |names| && NamedAt(names, i, lifecycle)
  }

  ghost predicate NamedAt(names: seq<string>, i: nat, lifecycle: Lifecycle)
    requires i < |names|
  {
    names[i] == LifecycleWord(lifecycle) && forall j, other :: 0 <= j < i ==> names[j] != LifecycleWord(other)
  }

  lemma WordsAreLifecycles(word: string, lifecycle: Lifecycle)
    ensures LifecycleOf(word) == Some(lifecycle) <==> word == LifecycleWord(lifecycle)
  {
  }

  lemma {:induction false} NearestLifecycle(names: seq<string>, lifecycle: Lifecycle)
    ensures FirstLifecycle(names) == Some(lifecycle) <==> NamesLifecycle(names, lifecycle)
  {
    if names != [] {
      NearestLifecycle(names[1..], lifecycle);
      forall other
        ensures LifecycleOf(names[0]) == Some(other) <==> names[0] == LifecycleWord(other)
      {
        WordsAreLifecycles(names[0], other);
      }
      hide LifecycleOf, LifecycleWord;
      if FirstLifecycle(names) == Some(lifecycle) {
        if LifecycleOf(names[0]).Some? {
          assert NamedAt(names, 0, lifecycle);
        } else {
          var i :| 0 <= i < |names| - 1 && NamedAt(names[1..], i, lifecycle);
          assert forall j :: 0 < j <= i ==> names[j] == names[1..][j - 1];
          assert NamedAt(names, i + 1, lifecycle);
        }
      }
      if NamesLifecycle(names, lifecycle) {
        var i :| 0 <= i < |names| && NamedAt(names, i, lifecycle);
        if i > 0 {
          assert forall j :: 0 < j <= i ==> names[1..][j - 1] == names[j];
          assert NamedAt(names[1..], i - 1, lifecycle);
        }
      }
    }
  }

  const TERMINALS: set<string> := {"set", "get", "update", "try_update", "extend_ttl", "extend_ttl_with_limits", "bump", "remove", "has"}

  /** A record of the body for the node at this path. */
  ghost predicate IsRecorded(body: Expr, path: seq<nat>, c: StorageChain) {
    c in Collect(body, [], false) && c.site == path
  }

  /**
   * A method call at the end of a chain, anywhere in a body, is recorded exactly when it is one of the nine storage
   * methods and the chain goes through `storage` and names a lifecycle; and then with the lifecycle named nearest, the
   * method, its arguments, and whether it is below a loop.
   */
  lemma ChainRecordedExactly(body: Expr, path: seq<nat>, links: seq<Link>, root: Expr, called: string, args: seq<Expr>,
                             c: StorageChain)
    requires !root.MethodCall? && !root.Call?
    requires NodeAt(body, path) == Some(MethodCall(Chained(links, root), called, args))
    ensures IsRecorded(body, path, c) <==>
      && called in TERMINALS && "storage" in NamesOn(links) && NamesLifecycle(NamesOn(links), c.lifecycle)
      && c.called == called && c.args == args && c.site == path && c.insideLoop == UnderLoop(body, path)
  {
    var e := MethodCall(Chained(links, root), called, args);
    NamesAreRead(links, root);
    NearestLifecycle(NamesOn(links), c.lifecycle);
    ChainsAreExact(body, c);
    AnyNearest(NamesOn(links));
    assert [] + path == path;
    hide Collect, NamesLifecycle, NamesOn, FirstLifecycle, ReceiverNames, NodeAt, UnderLoop, Chained;
    assert IsTerminal(called) <==> called in TERMINALS;
    if IsChainOf(body, c) && c.site == path {
      var other :| RecordsAt(c, body, [], false, other);
      assert [] + other == other;
    }
    if IsStorageChain(e) && c == ChainOf(e, path, UnderLoop(body, path)) {
      assert RecordsAt(c, body, [], false, path);
    }
  }

  lemma AnyNearest(names: seq<string>)
    ensures FirstLifecycle(names).Some? ==> NamesLifecycle(names, FirstLifecycle(names).value)
  {
    if FirstLifecycle(names).Some? {
      NearestLifecycle(names, FirstLifecycle(names).value);
    }
  }

  // ---------------------------------------------------------------------------
  // Loops, TTL management, and where the visitor goes
  // ---------------------------------------------------------------------------

  /** Below a loop is below a `for`, a `while` or a `loop`, at any distance. */
  lemma {:induction false} BelowLoopExactly(body: Expr, path: seq<nat>)
    requires NodeAt(body, path).Some?
    ensures UnderLoop(body, path) <==> exists n :: 0 <= n < |path| && LoopAt(body, path[..n])
    decreases |path|
  {
    if path != [] {
      var child, rest := Children(body)[path[0]], path[1..];
      BelowLoopExactly(child, rest);
      assert path[..0] == [];
      forall n | 0 < n < |path|
        ensures LoopAt(body, path[..n]) <==> LoopAt(child, rest[..n - 1])
      {
        assert path[..n][1..] == rest[..n - 1] && path[..n][0] == path[0];
      }
      if UnderLoop(child, rest) {
        var n :| 0 <= n < |rest| && LoopAt(child, rest[..n]);
        assert LoopAt(body, path[..n + 1]);
      }
      if IsLoop(body) {
        assert LoopAt(body, path[..0]);
      }
    }
  }

  predicate LoopAt(body: Expr, path: seq<nat>) {
    match NodeAt(body, path)
    case Some(ForLoop(_, _)) => true
    case Some(While(_, _)) => true
    case Some(Loop(_)) => true
    case _ => false
  }

  const TTL_NAMES: set<string> := {"extend_ttl", "extend_ttl_with_limits", "bump", "set_ttl"}

  /** `receiver.bump(..)` or `some::path::bump(..)`, with any of the four names. */
  predicate TtlCallAt(body: Expr, path: seq<nat>) {
    match NodeAt(body, path)
    case Some(MethodCall(_, called, _)) => called in TTL_NAMES
    case Some(Call(Path(segments), _)) => segments != [] && segments[|segments| - 1] in TTL_NAMES
    case _ => false
  }

  /** A function manages TTLs exactly when such a call is anywhere in it. */
  lemma ManagesExactly(body: Expr)
    ensures MentionsTtl(body) <==> exists path :: TtlCallAt(body, path)
  {
    TtlCallIsExact(body);
    forall path
      ensures TtlCallAt(body, path) <==> NodeAt(body, path).Some? && ManagesTtl(NodeAt(body, path).value)
    {
      TtlCallIsManagement(body, path);
    }
    hide TtlCallAt, ManagesTtl, NodeAt, MentionsTtl;
  }

  lemma TtlCallIsManagement(body: Expr, path: seq<nat>)
    ensures TtlCallAt(body, path) <==> NodeAt(body, path).Some? && ManagesTtl(NodeAt(body, path).value)
  {
    hide NodeAt;
  }

  /** `part` is written directly in `e`. */
  predicate IsPart(part: Expr, e: Expr) {
    match e
    case MethodCall(receiver, _, args) => part == receiver || part in args
    case Call(func, args) => part == func || part in args
    case Path(_) => false
    case Reference(inner) => part == inner
    case IntLit(_) => false
    case ForLoop(iter, body) => part == iter || part in body
    case While(cond, body) => part == cond || part in body
    case Loop(body) => part in body
    case Other(children) => part in children
  }

  /** The visitor goes into every part of every expression and nowhere else, receivers and headers first. */
  lemma VisitsEveryPart(e: Expr, part: Expr)
    ensures part in Children(e) <==> IsPart(part, e)
    ensures e.MethodCall? ==> Children(e)[0] == e.receiver && Children(e)[1..] == e.args
    ensures e.ForLoop? ==> Children(e)[0] == e.iter && Children(e)[1..] == e.body
    ensures e.While? ==> Children(e)[0] == e.cond && Children(e)[1..] == e.body
  {
  }

  // ---------------------------------------------------------------------------
  // Keys and writes
  // ---------------------------------------------------------------------------

  /** `&..&path(..)..(..)`: a path behind calls behind references. */
  function KeyExpr(refs: nat, calls: seq<seq<Expr>>, segments: seq<string>): Expr
    decreases refs + |calls|
  {
    if refs > 0 then Reference(KeyExpr(refs - 1, calls, segments))
    else if calls != [] then Call(KeyExpr(0, calls[1..], segments), calls[0])
    else Path(segments)
  }

  lemma {:induction false} KeyIsUnwrapped(refs: nat, calls: seq<seq<Expr>>, segments: seq<string>)
    ensures Uncalled(Unreferenced(KeyExpr(refs, calls, segments))) == Path(segments)
    decreases refs + |calls|
  {
    if refs > 0 {
      KeyIsUnwrapped(refs - 1, calls, segments);
    } else if calls != [] {
      KeyIsUnwrapped(0, calls[1..], segments);
      CallsUnwrap(calls[1..], segments);
    }
  }

  lemma {:induction false} CallsUnwrap(calls: seq<seq<Expr>>, segments: seq<string>)
    ensures Uncalled(KeyExpr(0, calls, segments)) == Path(segments)
  {
    if calls != [] {
      CallsUnwrap(calls[1..], segments);
    }
  }

  lemma {:induction false} UnwrappedIsKey(e: Expr) returns (refs: nat, calls: seq<seq<Expr>>)
    requires Uncalled(Unreferenced(e)).Path?
    ensures e == KeyExpr(refs, calls, Uncalled(Unreferenced(e)).segments)
  {
    if e.Reference? {
      refs, calls := UnwrappedIsKey(e.inner);
      refs := refs + 1;
    } else {
      calls := UncalledIsKey(e);
      refs := 0;
    }
  }

  lemma {:induction false} UncalledIsKey(e: Expr) returns (calls: seq<seq<Expr>>)
    requires Uncalled(e).Path?
    ensures e == KeyExpr(0, calls, Uncalled(e).segments)
  {
    if e.Call? {
      var inner := UncalledIsKey(e.func);
      calls := [e.args] + inner;
      assert calls[1..] == inner;
    } else {
      calls := [];
    }
  }

  ghost predicate SpellsKey(e: Expr, name: string) {
    exists refs, calls, segments :: SpelledWith(e, name, refs, calls, segments)
  }

  ghost predicate SpelledWith(e: Expr, name: string, refs: nat, calls: seq<seq<Expr>>, segments: seq<string>) {
    segments != [] && segments[|segments| - 1] == name && e == KeyExpr(refs, calls, segments)
  }

  /** The key of a chain is the last path segment of its first argument, and there is none unless that is spelled so. */
  lemma NamedKeyExactly(c: StorageChain, name: string)
    ensures NamedKey(c) == Some(name) <==> c.args != [] && SpellsKey(c.args[0], name)
  {
    if NamedKey(c) == Some(name) {
      var refs, calls := UnwrappedIsKey(c.args[0]);
      assert SpelledWith(c.args[0], name, refs, calls, Uncalled(Unreferenced(c.args[0])).segments);
    }
    if c.args != [] && SpellsKey(c.args[0], name) {
      var refs: nat, calls, segments :| SpelledWith(c.args[0], name, refs, calls, segments);
      KeyIsUnwrapped(refs, calls, segments);
    }
  }

  const WRITES: set<string> := {"set", "update", "try_update"}

  /**
   * A storage call anywhere in a function is reported for a missing TTL extension exactly when it is one of the three
   * writes, outside the instance, and no TTL method is called anywhere in the function.
   */
  lemma RawCallMissesTtlExactly(decls: seq<StorageDecl>, body: Expr, path: seq<nat>, lifecycle: Lifecycle, called: string,
                                args: seq<Expr>)
    requires NodeAt(body, path) == Some(RawCall(lifecycle, called, args)) && called in TERMINALS
    ensures (exists c: StorageChain :: c.site == path && IsReported(decls, [body], MissingTtlExtension, c)) <==>
      lifecycle != Instance && called in WRITES && !exists other :: TtlCallAt(body, other)
  {
    var call := RawCall(lifecycle, called, args);
    assert IsTerminal(called);
    var c := RawCallIsChain([body], 0, path, lifecycle, called, args);
    hide NodeAt, TtlCallAt, Collect, MentionsTtl, RawCall;
    ManagesExactly(body);
    TtlCallIsExact(body);
    forall d: StorageChain
      ensures IsReported(decls, [body], MissingTtlExtension, d) <==> IsChainOf(body, d) && WritesEntry(d) && !ManagesTtlIn(body)
    {
      MissingTtlMeans(decls, [body], d);
      assert [body][0] == body;
    }
    forall d: StorageChain | IsChainOf(body, d) && d.site == path
      ensures d == c
    {
      SameSiteSameChain(body, d, c);
    }
  }

  lemma SameSiteSameChain(body: Expr, c: StorageChain, d: StorageChain)
    requires IsChainOf(body, c) && IsChainOf(body, d) && c.site == d.site
    ensures c == d
  {
    hide NodeAt, UnderLoop;
    var p :| RecordsAt(c, body, [], false, p);
    var q :| RecordsAt(d, body, [], false, q);
    assert [] + p == p && [] + q == q;
  }
}
