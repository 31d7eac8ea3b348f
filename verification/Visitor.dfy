/** Expressions as the linter's visitor sees them, with children in visiting order. */
module LintAst {
  datatype Expr =
    | MethodCall(receiver: Expr, called: string, args: seq<Expr>)
    | Call(func: Expr, args: seq<Expr>)
    | Path(segments: seq<string>)
    | Reference(inner: Expr)
    | IntLit(value: nat)
    | ForLoop(iter: Expr, body: seq<Expr>)
    | While(cond: Expr, body: seq<Expr>)
    | Loop(body: seq<Expr>)
    /** Any other expression, block, statement or item. */
    | Other(children: seq<Expr>)

  function Children(e: Expr): seq<Expr> {
    match e
    case MethodCall(receiver, _, args) => [receiver] + args
    case Call(func, args) => [func] + args
    case Path(_) => []
    case Reference(inner) => [inner]
    case IntLit(_) => []
    case ForLoop(iter, body) => [iter] + body
    case While(cond, body) => [cond] + body
    case Loop(body) => body
    case Other(children) => children
  }

  lemma ChildIsSmaller(e: Expr, i: nat)
    requires i < |Children(e)|
    ensures Children(e)[i] < e
  {
    match e {
      case MethodCall(_, _, args) => assert i > 0 ==> Children(e)[i] == args[i - 1];
      case Call(_, args) => assert i > 0 ==> Children(e)[i] == args[i - 1];
      case ForLoop(_, body) => assert i > 0 ==> Children(e)[i] == body[i - 1];
      case While(_, body) => assert i > 0 ==> Children(e)[i] == body[i - 1];
      case _ =>
    }
  }

  predicate IsLoop(e: Expr) {
    e.ForLoop? || e.While? || e.Loop?
  }
}

/** The traversal that finds raw storage chains in a function body. */
module LintVisitor {
  import opened Wrappers
  import opened Ttl
  import opened SchemaTokens
  import opened LintAst

  /** The storage-chain terminal methods. */
  predicate IsTerminal(name: string) {
    name in ["set", "get", "update", "try_update", "extend_ttl", "extend_ttl_with_limits", "bump", "remove", "has"]
  }

  /** Methods on any receiver that count as explicit TTL management. */
  predicate IsTtlMethod(name: string) {
    name in ["extend_ttl", "extend_ttl_with_limits", "bump", "set_ttl"]
  }

  /** A chain found in source. Its place is the path from the function body, in place of line and column. */
  datatype StorageChain = StorageChain(
    lifecycle: Lifecycle, called: string, args: seq<Expr>, site: seq<nat>, insideLoop: bool)

  /** The method names along a receiver chain, nearest first. */
  function ReceiverNames(e: Expr): seq<string> {
    match e
    case MethodCall(receiver, called, _) => [called] + ReceiverNames(receiver)
    case Call(func, _) => ReceiverNames(func)
    case _ => []
  }

  function FirstLifecycle(names: seq<string>): Option<Lifecycle> {
    if names == [] then None
    else if LifecycleOf(names[0]).Some? then LifecycleOf(names[0])
    else FirstLifecycle(names[1..])
  }

  /** A terminal method on a receiver chain that names a lifecycle and goes through `storage()`. */
  predicate IsStorageChain(e: Expr) {
    && e.MethodCall? && IsTerminal(e.called)
    && FirstLifecycle(ReceiverNames(e.receiver)).Some? && "storage" in ReceiverNames(e.receiver)
  }

  function ChainOf(e: Expr, site: seq<nat>, insideLoop: bool): StorageChain
    requires IsStorageChain(e)
  {
    StorageChain(FirstLifecycle(ReceiverNames(e.receiver)).value, e.called, e.args, site, insideLoop)
  }

  /** A method call or a call of a path whose name is a TTL method. */
  predicate ManagesTtl(e: Expr) {
    || (e.MethodCall? && IsTtlMethod(e.called))
    || (e.Call? && e.func.Path? && e.func.segments != [] && IsTtlMethod(e.func.segments[|e.func.segments| - 1]))
  }

  // ---------------------------------------------------------------------------
  // The pure pre-order collector
  // ---------------------------------------------------------------------------

  function Collect(e: Expr, site: seq<nat>, inLoop: bool): seq<StorageChain>
    decreases e, |Children(e)| + 1
  {
    (if IsStorageChain(e) then [ChainOf(e, site, inLoop)] else []) + CollectFrom(e, site, inLoop || IsLoop(e), 0)
  }

  /** The chains in the children of `e` from number `i` on. */
  function CollectFrom(e: Expr, site: seq<nat>, inLoop: bool, i: nat): seq<StorageChain>
    requires i <= |Children(e)|
    decreases e, |Children(e)| - i
  {
    if i == |Children(e)| then []
    else
      ChildIsSmaller(e, i);
      Collect(Children(e)[i], site + [i], inLoop) + CollectFrom(e, site, inLoop, i + 1)
  }

  predicate MentionsTtl(e: Expr)
    decreases e, |Children(e)| + 1
  {
    ManagesTtl(e) || MentionsTtlFrom(e, 0)
  }

  predicate MentionsTtlFrom(e: Expr, i: nat)
    requires i <= |Children(e)|
    decreases e, |Children(e)| - i
  {
    if i == |Children(e)| then false
    else
      ChildIsSmaller(e, i);
      MentionsTtl(Children(e)[i]) || MentionsTtlFrom(e, i + 1)
  }

  // ---------------------------------------------------------------------------
  // The visitor
  // ---------------------------------------------------------------------------

  class FnVisitor {
    var chains: seq<StorageChain>
    var hasTtlCall: bool
    var loopDepth: nat

    constructor ()
      ensures chains == [] && !hasTtlCall && loopDepth == 0
    {
      chains, hasTtlCall, loopDepth := [], false, 0;
    }

    /** Records a chain when the receiver names a lifecycle and goes through `storage()`. */
    method PushChain(e: Expr, site: seq<nat>)
      requires e.MethodCall? && IsTerminal(e.called)
      modifies this`chains
      ensures chains == old(chains) + if IsStorageChain(e) then [ChainOf(e, site, loopDepth > 0)] else []
    {
      var names := ReceiverNames(e.receiver);
      var lifecycle := FirstLifecycle(names);
      if lifecycle.None? {
        return;
      }
      if "storage" !in names {
        return;
      }
      chains := chains + [StorageChain(lifecycle.value, e.called, e.args, site, loopDepth > 0)];
    }

    method VisitExpr(e: Expr, site: seq<nat>)
      modifies this
      ensures chains == old(chains) + Collect(e, site, old(loopDepth) > 0)
      ensures hasTtlCall == (old(hasTtlCall) || MentionsTtl(e))
      ensures loopDepth == old(loopDepth)
      decreases e, |Children(e)| + 1
    {
      hide IsTerminal, IsTtlMethod, CollectFrom, MentionsTtlFrom, ReceiverNames, FirstLifecycle;
      match e {
        case MethodCall(_, called, _) =>
          if IsTerminal(called) {
            PushChain(e, site);
          }
          if IsTtlMethod(called) {
            hasTtlCall := true;
          }
          VisitChildren(e, site);
        case Call(func, _) =>
          if func.Path? && func.segments != [] && IsTtlMethod(func.segments[|func.segments| - 1]) {
            hasTtlCall := true;
          }
          VisitChildren(e, site);
        case ForLoop(_, _) => VisitLoop(e, site);
        case While(_, _) => VisitLoop(e, site);
        case Loop(_) => VisitLoop(e, site);
        case _ => VisitChildren(e, site);
      }
    }

    /** Everything in a loop node, its header too, is inside the loop. */
    method VisitLoop(e: Expr, site: seq<nat>)
      requires IsLoop(e)
      modifies this
      ensures chains == old(chains) + CollectFrom(e, site, true, 0)
      ensures hasTtlCall == (old(hasTtlCall) || MentionsTtlFrom(e, 0))
      ensures loopDepth == old(loopDepth)
      decreases e, |Children(e)|, 1
    {
      loopDepth := loopDepth + 1;
      VisitChildren(e, site);
      loopDepth := loopDepth - 1;
    }

    method VisitChildren(e: Expr, site: seq<nat>)
      modifies this
      ensures chains == old(chains) + CollectFrom(e, site, old(loopDepth) > 0, 0)
      ensures hasTtlCall == (old(hasTtlCall) || MentionsTtlFrom(e, 0))
      ensures loopDepth == old(loopDepth)
      decreases e, |Children(e)|, 0
    {
      hide Collect, MentionsTtl;
      var children := Children(e);
      ghost var inLoop := loopDepth > 0;
      var i := 0;
      while i < |children|
        invariant i <= |children|
        invariant loopDepth == old(loopDepth)
        invariant chains + CollectFrom(e, site, inLoop, i) == old(chains) + CollectFrom(e, site, inLoop, 0)
        invariant (hasTtlCall || MentionsTtlFrom(e, i)) == (old(hasTtlCall) || MentionsTtlFrom(e, 0))
      {
        ChildIsSmaller(e, i);
        VisitExpr(children[i], site + [i]);
        i := i + 1;
      }
    }
  }

  datatype FnStorage = FnStorage(chains: seq<StorageChain>, hasTtlCall: bool)

  method ScanFn(body: Expr) returns (found: FnStorage)
    ensures found == FnStorage(Collect(body, [], false), MentionsTtl(body))
  {
    var visitor := new FnVisitor();
    visitor.VisitExpr(body, []);
    assert [] + Collect(body, [], false) == Collect(body, [], false);
    found := FnStorage(visitor.chains, visitor.hasTtlCall);
  }

  // ---------------------------------------------------------------------------
  // What the collector finds
  // ---------------------------------------------------------------------------

  /** The node at a path from `e`, each step being the number of a child. */
  function NodeAt(e: Expr, path: seq<nat>): Option<Expr>
    decreases |path|
  {
    if path == [] then Some(e)
    else if path[0] < |Children(e)| then NodeAt(Children(e)[path[0]], path[1..])
    else None
  }

  /** Whether some node strictly above the end of the path is a loop. */
  predicate UnderLoop(e: Expr, path: seq<nat>)
    decreases |path|
  {
    path != [] && (IsLoop(e) || (path[0] < |Children(e)| && UnderLoop(Children(e)[path[0]], path[1..])))
  }

  /** `c` is the record of the storage chain at `path`. */
  ghost predicate RecordsAt(c: StorageChain, e: Expr, site: seq<nat>, inLoop: bool, path: seq<nat>) {
    && NodeAt(e, path).Some? && IsStorageChain(NodeAt(e, path).value)
    && c == ChainOf(NodeAt(e, path).value, site + path, inLoop || UnderLoop(e, path))
  }

  /** A record below a child is a record below its parent. */
  lemma RecordsBelow(c: StorageChain, e: Expr, site: seq<nat>, inLoop: bool, i: nat, rest: seq<nat>)
    requires i < |Children(e)|
    ensures RecordsAt(c, Children(e)[i], site + [i], inLoop || IsLoop(e), rest) <==> RecordsAt(c, e, site, inLoop, [i] + rest)
  {
    var path := [i] + rest;
    assert path[0] == i && path[1..] == rest;
    assert site + [i] + rest == site + path;
  }

  lemma {:induction false} CollectedIsThere(e: Expr, site: seq<nat>, inLoop: bool, c: StorageChain) returns (path: seq<nat>)
    requires c in Collect(e, site, inLoop)
    ensures RecordsAt(c, e, site, inLoop, path)
    decreases e, |Children(e)| + 1
  {
    if IsStorageChain(e) && c == ChainOf(e, site, inLoop) {
      path := [];
      assert site + [] == site;
    } else {
      hide RecordsAt;
      var i, rest := CollectedBelow(e, site, inLoop || IsLoop(e), 0, c);
      path := [i] + rest;
      RecordsBelow(c, e, site, inLoop, i, rest);
    }
  }

  lemma {:induction false} CollectedBelow(e: Expr, site: seq<nat>, inLoop: bool, from: nat, c: StorageChain)
      returns (i: nat, rest: seq<nat>)
    requires from <= |Children(e)| && c in CollectFrom(e, site, inLoop, from)
    ensures from <= i < |Children(e)| && RecordsAt(c, Children(e)[i], site + [i], inLoop, rest)
    decreases e, |Children(e)| - from
  {
    ChildIsSmaller(e, from);
    if c in Collect(Children(e)[from], site + [from], inLoop) {
      i := from;
      rest := CollectedIsThere(Children(e)[from], site + [from], inLoop, c);
    } else {
      i, rest := CollectedBelow(e, site, inLoop, from + 1, c);
    }
  }

  lemma {:induction false} ThereIsCollected(e: Expr, site: seq<nat>, inLoop: bool, c: StorageChain, path: seq<nat>)
    requires RecordsAt(c, e, site, inLoop, path)
    ensures c in Collect(e, site, inLoop)
    decreases |path|
  {
    if path == [] {
      assert site + [] == site;
    } else {
      var i, rest := path[0], path[1..];
      assert [i] + rest == path;
      RecordsBelow(c, e, site, inLoop, i, rest);
      ThereIsCollected(Children(e)[i], site + [i], inLoop || IsLoop(e), c, rest);
      ChildIsCollected(e, site, inLoop || IsLoop(e), 0, i, c);
    }
  }

  lemma {:induction false} ChildIsCollected(e: Expr, site: seq<nat>, inLoop: bool, from: nat, i: nat, c: StorageChain)
    requires from <= i < |Children(e)| && c in Collect(Children(e)[i], site + [i], inLoop)
    ensures c in CollectFrom(e, site, inLoop, from)
    decreases i - from
  {
    hide Collect;
    if from < i {
      ChildIsCollected(e, site, inLoop, from + 1, i, c);
    }
  }

  /** `c` records a storage chain somewhere in the body. */
  ghost predicate IsChainOf(body: Expr, c: StorageChain) {
    exists path :: RecordsAt(c, body, [], false, path)
  }

  /**
   * The chains recorded for a function body are exactly its storage chains, each with `inside_loop` set exactly when
   * some loop node lies above it.
   */
  lemma ChainsAreExact(body: Expr, c: StorageChain)
    ensures c in Collect(body, [], false) <==> IsChainOf(body, c)
  {
    if c in Collect(body, [], false) {
      var path := CollectedIsThere(body, [], false, c);
    }
    forall path | RecordsAt(c, body, [], false, path)
      ensures c in Collect(body, [], false)
    {
      ThereIsCollected(body, [], false, c, path);
    }
  }

  // ---------------------------------------------------------------------------
  // Once each, in source order
  // ---------------------------------------------------------------------------

  /** `a` comes before `b` in pre-order: it is above it, or further left where they part. */
  ghost predicate Precedes(a: seq<nat>, b: seq<nat>) {
    exists k :: PartsAt(a, b, k)
  }

  predicate PartsAt(a: seq<nat>, b: seq<nat>, k: nat) {
    k <= |a| && k < |b| && a[..k] == b[..k] && (k == |a| || a[k] < b[k])
  }

  ghost predicate InOrder(chains: seq<StorageChain>) {
    forall i, j :: 0 <= i < j < |chains| ==> Precedes(chains[i].site, chains[j].site)
  }

  /** Every chain lies at or below `site`. */
  ghost predicate AllBelow(chains: seq<StorageChain>, site: seq<nat>) {
    forall i :: 0 <= i < |chains| ==> site <= chains[i].site
  }

  /** Every chain lies strictly below `site`, under a child numbered `from` or later. */
  ghost predicate AllUnder(chains: seq<StorageChain>, site: seq<nat>, from: nat) {
    forall i :: 0 <= i < |chains| ==>
      site <= chains[i].site && |site| < |chains[i].site| && from <= chains[i].site[|site|]
  }

  lemma {:induction false} CollectIsInOrder(e: Expr, site: seq<nat>, inLoop: bool)
    ensures InOrder(Collect(e, site, inLoop)) && AllBelow(Collect(e, site, inLoop), site)
    decreases e, |Children(e)| + 1
  {
    var inner := inLoop || IsLoop(e);
    var below := CollectFrom(e, site, inner, 0);
    CollectFromIsInOrder(e, site, inner, 0);
    forall j | 0 <= j < |below|
      ensures Precedes(site, below[j].site)
    {
      assert PartsAt(site, below[j].site, |site|);
    }
  }

  lemma {:induction false} CollectFromIsInOrder(e: Expr, site: seq<nat>, inLoop: bool, from: nat)
    requires from <= |Children(e)|
    ensures InOrder(CollectFrom(e, site, inLoop, from)) && AllUnder(CollectFrom(e, site, inLoop, from), site, from)
    decreases e, |Children(e)| - from
  {
    if from < |Children(e)| {
      ChildIsSmaller(e, from);
      var here := Collect(Children(e)[from], site + [from], inLoop);
      var later := CollectFrom(e, site, inLoop, from + 1);
      CollectIsInOrder(Children(e)[from], site + [from], inLoop);
      CollectFromIsInOrder(e, site, inLoop, from + 1);
      AppendInOrder(here, later, site, from);
    }
  }

  /** What lies below one child comes before what lies below later ones. */
  lemma AppendInOrder(here: seq<StorageChain>, later: seq<StorageChain>, site: seq<nat>, from: nat)
    requires InOrder(here) && AllBelow(here, site + [from])
    requires InOrder(later) && AllUnder(later, site, from + 1)
    ensures InOrder(here + later) && AllUnder(here + later, site, from)
  {
    forall i | 0 <= i < |here|
      ensures site <= here[i].site && |site| < |here[i].site| && here[i].site[|site|] == from
    {
      UnderChild(here[i].site, site, from);
    }
    forall i, j | 0 <= i < |here| && 0 <= j < |later|
      ensures Precedes(here[i].site, later[j].site)
    {
      UnderChild(here[i].site, site, from);
      assert PartsAt(here[i].site, later[j].site, |site|);
    }
    hide Precedes;
    var all := here + later;
    forall i, j | 0 <= i < j < |all|
      ensures Precedes(all[i].site, all[j].site)
    {
    }
  }

  lemma UnderChild(path: seq<nat>, site: seq<nat>, from: nat)
    requires site + [from] <= path
    ensures site <= path && |site| < |path| && path[|site|] == from
  {
    assert path[..|site| + 1] == site + [from];
    assert path[..|site|] == site;
  }

  /** Every chain is recorded once, and the record is in source order. */
  lemma ChainsAreRecordedOnce(body: Expr)
    ensures InOrder(Collect(body, [], false))
    ensures forall i, j :: 0 <= i < j < |Collect(body, [], false)| ==>
      Collect(body, [], false)[i].site != Collect(body, [], false)[j].site
  {
    CollectIsInOrder(body, [], false);
  }

  // ---------------------------------------------------------------------------
  // TTL management
  // ---------------------------------------------------------------------------

  lemma {:induction false} MentionedIsThere(e: Expr) returns (path: seq<nat>)
    requires MentionsTtl(e)
    ensures NodeAt(e, path).Some? && ManagesTtl(NodeAt(e, path).value)
    decreases e, |Children(e)| + 1
  {
    if ManagesTtl(e) {
      path := [];
    } else {
      var i, rest := MentionedBelow(e, 0);
      path := [i] + rest;
      assert path[1..] == rest;
    }
  }

  lemma {:induction false} MentionedBelow(e: Expr, from: nat) returns (i: nat, rest: seq<nat>)
    requires from <= |Children(e)| && MentionsTtlFrom(e, from)
    ensures i < |Children(e)| && NodeAt(Children(e)[i], rest).Some? && ManagesTtl(NodeAt(Children(e)[i], rest).value)
    decreases e, |Children(e)| - from
  {
    ChildIsSmaller(e, from);
    if MentionsTtl(Children(e)[from]) {
      i := from;
      rest := MentionedIsThere(Children(e)[from]);
    } else {
      i, rest := MentionedBelow(e, from + 1);
    }
  }

  lemma {:induction false} ThereIsMentioned(e: Expr, path: seq<nat>)
    requires NodeAt(e, path).Some? && ManagesTtl(NodeAt(e, path).value)
    ensures MentionsTtl(e)
    decreases |path|
  {
    if path != [] {
      ThereIsMentioned(Children(e)[path[0]], path[1..]);
      ChildIsMentioned(e, 0, path[0]);
    }
  }

  lemma {:induction false} ChildIsMentioned(e: Expr, from: nat, i: nat)
    requires from <= i < |Children(e)| && MentionsTtl(Children(e)[i])
    ensures MentionsTtlFrom(e, from)
    decreases i - from
  {
    if from < i {
      ChildIsMentioned(e, from + 1, i);
    }
  }

  ghost predicate ManagesTtlIn(body: Expr) {
    exists path :: NodeAt(body, path).Some? && ManagesTtl(NodeAt(body, path).value)
  }

  /** A function counts as managing TTLs exactly when some method or path call in it, at any depth, does. */
  lemma TtlCallIsExact(body: Expr)
    ensures MentionsTtl(body) <==> ManagesTtlIn(body)
  {
    if MentionsTtl(body) {
      var path := MentionedIsThere(body);
    }
    forall path | NodeAt(body, path).Some? && ManagesTtl(NodeAt(body, path).value)
      ensures MentionsTtl(body)
    {
      ThereIsMentioned(body, path);
    }
  }
}
