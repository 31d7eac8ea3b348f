/** The grammar of a storage schema: the token lists there are, written out from what they say. */
module SchemaGrammar {
  import opened Ttl
  import opened SchemaTokens

  /** Types at the even places, commas at the odd ones: separated by commas, a trailing one being optional. */
  predicate IsArgList(content: seq<Token>) {
    forall i :: 0 <= i < |content| ==> if i % 2 == 0 then IsType(content[i]) else content[i] == Comma
  }

  function ArgTexts(content: seq<Token>): seq<string> {
    seq((|content| + 1) / 2, i requires 0 <= i < (|content| + 1) / 2 => TextOf(content[2 * i]))
  }

  // ---------------------------------------------------------------------------
  // Entries
  // ---------------------------------------------------------------------------

  /** An entry as it is written: `#[...] name(args) -> value,`. */
  datatype Written = Written(attrs: seq<Attribute>, name: string, args: seq<Token>, value: Token)

  predicate WellFormed(entry: Written) {
    IsArgList(entry.args) && IsType(entry.value)
  }

  function SpellAttrs(attrs: seq<Attribute>): seq<Token> {
    if attrs == [] then [] else [Attr(attrs[0])] + SpellAttrs(attrs[1..])
  }

  function SpellEntry(entry: Written): seq<Token> {
    SpellAttrs(entry.attrs) + [Ident(entry.name), Parens(entry.args), Arrow, entry.value, Comma]
  }

  function SpellEntries(entries: seq<Written>): seq<Token> {
    if entries == [] then [] else SpellEntry(entries[0]) + SpellEntries(entries[1..])
  }

  /** The entries are well formed and `ts` spells them, one after the other. */
  predicate Spells(ts: seq<Token>, entries: seq<Written>) {
    (forall entry :: entry in entries ==> WellFormed(entry)) && ts == SpellEntries(entries)
  }

  lemma {:induction false} AttrsReadBack(attrs: seq<Attribute>, rest: seq<Token>)
    requires rest == [] || !rest[0].Attr?
    ensures LeadingAttrs(SpellAttrs(attrs) + rest) == (attrs, rest)
  {
    var ts := SpellAttrs(attrs) + rest;
    if attrs == [] {
      assert ts == rest;
    } else {
      AttrsReadBack(attrs[1..], rest);
      assert ts[1..] == SpellAttrs(attrs[1..]) + rest;
      assert attrs == [attrs[0]] + attrs[1..];
    }
  }

  lemma {:induction false} AttrsSpelled(ts: seq<Token>)
    ensures ts == SpellAttrs(LeadingAttrs(ts).0) + LeadingAttrs(ts).1
  {
    if ts != [] && ts[0].Attr? {
      AttrsSpelled(ts[1..]);
      var attrs := LeadingAttrs(ts).0;
      assert attrs[1..] == LeadingAttrs(ts[1..]).0;
    }
  }

  // ---------------------------------------------------------------------------
  // Options
  // ---------------------------------------------------------------------------

  /** An option as it is written. */
  datatype WrittenOption =
    | Lives(lifecycle: Lifecycle)
    | IsCritical
    | Bumps
    | BumpsIf(flag: bool)
    | NeverBumps
    | UsesPolicy(policy: Token)

  predicate WellFormedOption(option: WrittenOption) {
    option.UsesPolicy? ==> IsExpr(option.policy)
  }

  function LifecycleWord(lifecycle: Lifecycle): string {
    match lifecycle
    case Persistent => "persistent"
    case Temporary => "temporary"
    case Instance => "instance"
  }

  function SpellOption(option: WrittenOption): seq<Token> {
    match option
    case Lives(lifecycle) => [Ident(LifecycleWord(lifecycle))]
    case IsCritical => [Ident("critical")]
    case Bumps => [Ident("auto_bump")]
    case BumpsIf(flag) => [Ident("auto_bump"), Equals, Bool(flag)]
    case NeverBumps => [Ident("no_bump")]
    case UsesPolicy(policy) => [Ident("policy"), Equals, policy]
  }

  /** Options with a comma between any two, and one after the last when `trailing`. */
  function SpellOptions(options: seq<WrittenOption>, trailing: bool): seq<Token> {
    if options == [] then []
    else if |options| == 1 then SpellOption(options[0]) + if trailing then [Comma] else []
    else SpellOption(options[0]) + [Comma] + SpellOptions(options[1..], trailing)
  }

  predicate SpellsOptions(ts: seq<Token>, options: seq<WrittenOption>, trailing: bool) {
    && (forall option :: option in options ==> WellFormedOption(option))
    && ts == SpellOptions(options, trailing)
  }

  /** A comma-separated list of options, with an optional trailing comma; the empty list is one. */
  ghost predicate IsOptionList(ts: seq<Token>) {
    exists options, trailing :: SpellsOptions(ts, options, trailing)
  }
}
