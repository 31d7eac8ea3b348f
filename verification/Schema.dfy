/** The tokens of a storage schema. Types and policy expressions are opaque runs. */
module SchemaTokens {
  import opened Wrappers
  import opened Ttl

  datatype Token =
    | Ident(name: string)
    | Comma
    | Arrow
    | Equals
    | Bool(value: bool)
    | TypeRun(text: string)
    | ExprRun(text: string)
    | Parens(inner: seq<Token>)
    | Attr(attribute: Attribute)

  /** An outer attribute: `#[path]`, `#[path(args)]` or `#[path = ...]`. */
  datatype Attribute = Attribute(path: string, meta: Meta)

  datatype Meta = NoArgs | Args(tokens: seq<Token>) | Value

  /** A single identifier is a type and an expression too. */
  predicate IsType(t: Token) {
    t.TypeRun? || t.Ident?
  }

  predicate IsExpr(t: Token) {
    t.ExprRun? || t.Ident? || t.Bool?
  }

  function TextOf(t: Token): string {
    match t
    case TypeRun(text) => text
    case ExprRun(text) => text
    case Ident(name) => name
    case Bool(b) => if b then "true" else "false"
    case _ => ""
  }

  predicate Starts(ts: seq<Token>, t: Token) {
    ts != [] && ts[0] == t
  }

  function LifecycleOf(word: string): Option<Lifecycle> {
    if word == "persistent" then Some(Persistent)
    else if word == "temporary" then Some(Temporary)
    else if word == "instance" then Some(Instance)
    else None
  }

  /** The leading attributes, and what follows them. */
  function LeadingAttrs(ts: seq<Token>): (seq<Attribute>, seq<Token>) {
    if ts == [] || !ts[0].Attr? then ([], ts)
    else
      var (attrs, rest) := LeadingAttrs(ts[1..]);
      ([ts[0].attribute] + attrs, rest)
  }

  lemma AttrsShorten(ts: seq<Token>)
    ensures |LeadingAttrs(ts).1| <= |ts|
  {
  }
}

/** The `storage!` macro: parsing the schema, merging attribute options, and the checks an entry must pass. */
module MacroParser {
  import opened Wrappers
  import opened Ttl
  import opened SchemaTokens
  import opened SchemaGrammar

  datatype SchemaError =
    | SyntaxError
    | UnknownOption(name: string)
    | NoEntries
    | MissingLifecycle(entry: string)
    | CriticalTemporary(entry: string)

  datatype Entry = Entry(attrs: seq<Attribute>, name: string, argTypes: seq<string>, valueType: string)

  datatype StorageOpts = StorageOpts(lifecycle: Option<Lifecycle>, critical: bool, autoBump: bool, policy: Option<string>)

  /** What the macro generates accessors from; without a policy the lifecycle's default applies. */
  datatype Accessor = Accessor(
    name: string, lifecycle: Lifecycle, critical: bool, autoBump: bool, policy: Option<string>,
    argTypes: seq<string>, valueType: string)

  // ---------------------------------------------------------------------------
  // Entries
  // ---------------------------------------------------------------------------

  /** The key argument types of an entry. */
  function ArgTypes(content: seq<Token>): Option<seq<string>> {
    if IsArgList(content) then Some(ArgTexts(content)) else None
  }

  /** The argument loop accepts exactly the lists of types, with or without a trailing comma, and returns the types. */
  method ParseArgs(content: seq<Token>) returns (types: Option<seq<string>>)
    ensures types == if IsArgList(content) then Some(ArgTexts(content)) else None
  {
    var found: seq<string> := [];
    var rest := content;
    if rest == [] {
      return Some([]);
    }
    if !IsType(rest[0]) {
      return None;
    }
    found, rest := [TextOf(rest[0])], rest[1..];
    ghost var n := 1;
    while Starts(rest, Comma)
      invariant n == 2 * |found| - 1 && 1 <= n <= |content| && rest == content[n..]
      invariant ArgsUpTo(content, n)
      invariant forall i :: 0 <= i < |found| ==> found[i] == TextOf(content[2 * i])
      decreases |rest|
    {
      hide ArgsUpTo, IsArgList;
      assert ArgsUpTo(content, n + 1) by { OneMoreArg(content, n); }
      rest := rest[1..];
      n := n + 1;
      if rest == [] {
        break;
      }
      if !IsType(rest[0]) {
        OneMoreArg(content, n);
        return None;
      }
      assert ArgsUpTo(content, n + 1) by { OneMoreArg(content, n); }
      found, rest := found + [TextOf(rest[0])], rest[1..];
      n := n + 1;
    }
    // Tokens left over in the parentheses are an error.
    types := if rest == [] then Some(found) else None;
    if rest == [] {
      assert found == ArgTexts(content);
    } else {
      OneMoreArg(content, n);
    }
  }

  predicate ArgsUpTo(content: seq<Token>, n: nat)
    requires n <= |content|
  {
    forall i :: 0 <= i < n ==> if i % 2 == 0 then IsType(content[i]) else content[i] == Comma
  }

  lemma OneMoreArg(content: seq<Token>, n: nat)
    requires n < |content| && ArgsUpTo(content, n)
    ensures ArgsUpTo(content, n + 1) <==> if n % 2 == 0 then IsType(content[n]) else content[n] == Comma
    ensures IsArgList(content) ==> ArgsUpTo(content, n + 1)
  {
  }

  /** One entry, `#[...] Name(Types) -> Type,`, and what follows it. */
  function FirstEntry(ts: seq<Token>): Option<(Entry, seq<Token>)> {
    var (attrs, rest) := LeadingAttrs(ts);
    if |rest| >= 5 && rest[0].Ident? && rest[1].Parens? && ArgTypes(rest[1].inner).Some?
       && rest[2] == Arrow && IsType(rest[3]) && rest[4] == Comma
    then Some((Entry(attrs, rest[0].name, ArgTypes(rest[1].inner).value, TextOf(rest[3])), rest[5..]))
    else None
  }

  function Entries(ts: seq<Token>): Option<seq<Entry>>
    decreases |ts|
  {
    if ts == [] then Some([])
    else
      AttrsShorten(ts);
      match FirstEntry(ts)
      case None => None
      case Some((entry, rest)) => After([entry], Entries(rest))
  }

  function After<T>(found: seq<T>, others: Option<seq<T>>): Option<seq<T>> {
    match others
    case Some(more) => Some(found + more)
    case None => None
  }

  method ParseEntry(ts: seq<Token>) returns (parsed: Option<(Entry, seq<Token>)>)
    ensures parsed == FirstEntry(ts)
  {
    var (attrs, rest) := LeadingAttrs(ts);
    if |rest| < 2 || !rest[0].Ident? || !rest[1].Parens? {
      return None;
    }
    var argTypes := ParseArgs(rest[1].inner);
    if argTypes.None? || |rest| < 5 || rest[2] != Arrow || !IsType(rest[3]) || rest[4] != Comma {
      return None;
    }
    parsed := Some((Entry(attrs, rest[0].name, argTypes.value, TextOf(rest[3])), rest[5..]));
  }

  /**
   * The entry loop succeeds exactly on the token lists that spell well-formed entries, and then returns what these
   * say, in order.
   */
  method ParseInput(ts: seq<Token>) returns (entries: Option<seq<Entry>>)
    ensures entries == Entries(ts)
    ensures entries.Some? <==> exists written :: Spells(ts, written)
    ensures forall written :: Spells(ts, written) ==> entries == Some(MeaningsOf(written))
  {
    var found: seq<Entry> := [];
    var rest := ts;
    assert Entries(ts).Some? ==> found + Entries(ts).value == Entries(ts).value;
    while rest != []
      invariant Entries(ts) == After(found, Entries(rest))
      decreases |rest|
    {
      AttrsShorten(rest);
      var parsed := ParseEntry(rest);
      if parsed.None? {
        AcceptsExactly(ts);
        return None;
      }
      AfterTwice(found, parsed.value.0, Entries(parsed.value.1));
      found, rest := found + [parsed.value.0], parsed.value.1;
    }
    AcceptsExactly(ts);
    assert found + [] == found;
    entries := Some(found);
  }

  lemma AfterTwice<T>(found: seq<T>, one: T, others: Option<seq<T>>)
    ensures After(found, After([one], others)) == After(found + [one], others)
  {
    if others.Some? {
      assert found + ([one] + others.value) == found + [one] + others.value;
    }
  }

  // ---------------------------------------------------------------------------
  // What the entry loop accepts
  // ---------------------------------------------------------------------------

  /** What a written entry says. */
  function MeaningOf(written: Written): Entry {
    Entry(written.attrs, written.name, ArgTexts(written.args), TextOf(written.value))
  }

  function MeaningsOf(written: seq<Written>): seq<Entry> {
    if written == [] then [] else [MeaningOf(written[0])] + MeaningsOf(written[1..])
  }

  lemma EntryReadBack(written: Written, rest: seq<Token>)
    requires WellFormed(written)
    ensures FirstEntry(SpellEntry(written) + rest) == Some((MeaningOf(written), rest))
  {
    var tail := [Ident(written.name), Parens(written.args), Arrow, written.value, Comma] + rest;
    assert SpellEntry(written) + rest == SpellAttrs(written.attrs) + tail;
    AttrsReadBack(written.attrs, tail);
    assert tail[5..] == rest;
  }

  lemma EntrySpelled(ts: seq<Token>) returns (written: Written)
    requires FirstEntry(ts).Some?
    ensures WellFormed(written) && MeaningOf(written) == FirstEntry(ts).value.0
    ensures ts == SpellEntry(written) + FirstEntry(ts).value.1
  {
    hide LeadingAttrs, SpellAttrs, IsArgList, ArgTexts;
    AttrsSpelled(ts);
    var (attrs, rest) := LeadingAttrs(ts);
    written := Written(attrs, rest[0].name, rest[1].inner, rest[3]);
    assert rest == [Ident(written.name), Parens(written.args), Arrow, written.value, Comma] + rest[5..];
  }

  /** Writing entries out and parsing them gives back what they say. */
  lemma {:induction false} EntriesReadBack(written: seq<Written>)
    requires forall entry :: entry in written ==> WellFormed(entry)
    ensures Entries(SpellEntries(written)) == Some(MeaningsOf(written))
  {
    hide FirstEntry, SpellEntry;
    if written != [] {
      EntryReadBack(written[0], SpellEntries(written[1..]));
      EntriesReadBack(written[1..]);
      SpellingIsLonger(written[0]);
    }
  }

  lemma SpellingIsLonger(written: Written)
    ensures |SpellEntry(written)| > 0
  {
  }

  /** Whatever parses has been written so. */
  lemma {:induction false} EntriesSpelled(ts: seq<Token>) returns (written: seq<Written>)
    requires Entries(ts).Some?
    ensures Spells(ts, written)
    decreases |ts|
  {
    hide SpellEntry;
    if ts == [] {
      written := [];
    } else {
      AttrsShorten(ts);
      var first := EntrySpelled(ts);
      var others := EntriesSpelled(FirstEntry(ts).value.1);
      written := [first] + others;
      assert written[1..] == others;
    }
  }

  /** A token list is a schema exactly when it spells well-formed entries, and these are what is parsed. */
  lemma AcceptsExactly(ts: seq<Token>)
    ensures Entries(ts).Some? <==> exists written :: Spells(ts, written)
    ensures forall written :: Spells(ts, written) ==> Entries(ts) == Some(MeaningsOf(written))
  {
    if Entries(ts).Some? {
      var written := EntriesSpelled(ts);
    }
    forall written | Spells(ts, written)
      ensures Entries(ts) == Some(MeaningsOf(written))
    {
      EntriesReadBack(written);
    }
  }

  // ---------------------------------------------------------------------------
  // Options
  // ---------------------------------------------------------------------------

  /** One option at the head of `ts`: the options with it applied, and what follows. */
  function OneOption(opts: StorageOpts, ts: seq<Token>): Result<(StorageOpts, seq<Token>), SchemaError>
    requires ts != [] && ts[0].Ident?
  {
    var word, rest := ts[0].name, ts[1..];
    if LifecycleOf(word).Some? then Ok((opts.(lifecycle := LifecycleOf(word)), rest))
    else if word == "critical" then Ok((opts.(critical := true), rest))
    else if word == "auto_bump" then
      if !Starts(rest, Equals) then Ok((opts.(autoBump := true), rest))
      else if |rest| >= 2 && rest[1].Bool? then Ok((opts.(autoBump := rest[1].value), rest[2..]))
      else Err(SyntaxError)
    else if word == "no_bump" then Ok((opts.(autoBump := false), rest))
    else if word == "policy" then
      if |rest| >= 2 && rest[0] == Equals && IsExpr(rest[1]) then Ok((opts.(policy := Some(TextOf(rest[1]))), rest[2..]))
      else Err(SyntaxError)
    else Err(UnknownOption(word))
  }

  /** The rest of an option list; anything that is not consumed is an error. */
  function OptionsFrom(opts: StorageOpts, ts: seq<Token>): Result<StorageOpts, SchemaError>
    decreases |ts|
  {
    if ts == [] then Ok(opts)
    else if !ts[0].Ident? then Err(SyntaxError)
    else
      match OneOption(opts, ts)
      case Err(e) => Err(e)
      case Ok((opts', rest)) =>
        if Starts(rest, Comma) then OptionsFrom(opts', rest[1..])
        else if rest == [] then Ok(opts')
        else Err(SyntaxError)
  }

  const NO_OPTIONS := StorageOpts(None, false, true, None)

  function Options(ts: seq<Token>): Result<StorageOpts, SchemaError> {
    OptionsFrom(NO_OPTIONS, ts)
  }

  method ParseOptions(ts: seq<Token>) returns (parsed: Result<StorageOpts, SchemaError>)
    ensures parsed == Options(ts)
  {
    var opts := NO_OPTIONS;
    var rest := ts;
    while rest != [] && rest[0].Ident?
      invariant OptionsFrom(opts, rest) == Options(ts)
      decreases |rest|
    {
      var step := OneOption(opts, rest);
      if step.Err? {
        return Err(step.error);
      }
      opts, rest := step.value.0, step.value.1;
      if Starts(rest, Comma) {
        rest := rest[1..];
      } else {
        return if rest == [] then Ok(opts) else Err(SyntaxError);
      }
    }
    parsed := if rest == [] then Ok(opts) else Err(SyntaxError);
  }

  // ---------------------------------------------------------------------------
  // Merging, and the checks on an entry
  // ---------------------------------------------------------------------------

  /** Parses the arguments of one storage attribute; an attribute without an argument list is an error. */
  function AttrOptions(attr: Attribute): Result<StorageOpts, SchemaError> {
    if attr.meta.Args? then Options(attr.meta.tokens) else Err(SyntaxError)
  }

  function MergeOne(merged: StorageOpts, parsed: StorageOpts): StorageOpts {
    StorageOpts(
      if parsed.lifecycle.Some? then parsed.lifecycle else merged.lifecycle,
      merged.critical || parsed.critical,
      parsed.autoBump,
      if parsed.policy.Some? then parsed.policy else merged.policy)
  }

  const NOTHING_MERGED := StorageOpts(None, false, false, None)

  function Merge(attrs: seq<Attribute>): Result<StorageOpts, SchemaError> {
    if attrs == [] then Ok(NOTHING_MERGED)
    else
      var n := |attrs| - 1;
      match Merge(attrs[..n])
      case Err(e) => Err(e)
      case Ok(merged) =>
        if attrs[n].path != "storage" then Ok(merged)
        else match AttrOptions(attrs[n])
          case Err(e) => Err(e)
          case Ok(parsed) => Ok(MergeOne(merged, parsed))
  }

  method MergeOpts(attrs: seq<Attribute>) returns (result: Result<StorageOpts, SchemaError>)
    ensures result == Merge(attrs)
  {
    var merged := NOTHING_MERGED;
    for i := 0 to |attrs|
      invariant Merge(attrs[..i]) == Ok(merged)
    {
      assert attrs[..i + 1][..i] == attrs[..i];
      var attr := attrs[i];
      if attr.path == "storage" {
        if !attr.meta.Args? {
          MergeFailsEarly(attrs, i + 1);
          return Err(SyntaxError);
        }
        var parsed := ParseOptions(attr.meta.tokens);
        if parsed.Err? {
          MergeFailsEarly(attrs, i + 1);
          return Err(parsed.error);
        }
        merged := MergeOne(merged, parsed.value);
      }
    }
    assert attrs[..|attrs|] == attrs;
    result := Ok(merged);
  }

  lemma {:induction false} MergeFailsEarly(attrs: seq<Attribute>, n: nat)
    requires n <= |attrs| && Merge(attrs[..n]).Err?
    ensures Merge(attrs) == Merge(attrs[..n])
    decreases |attrs| - n
  {
    if n < |attrs| {
      assert attrs[..n + 1][..n] == attrs[..n];
      MergeFailsEarly(attrs, n + 1);
    } else {
      assert attrs[..n] == attrs;
    }
  }

  /** The checks on one entry. */
  function AccessorOf(entry: Entry): Result<Accessor, SchemaError> {
    match Merge(entry.attrs)
    case Err(e) => Err(e)
    case Ok(opts) =>
      if opts.lifecycle.None? then Err(MissingLifecycle(entry.name))
      else if opts.critical && opts.lifecycle == Some(Temporary) then Err(CriticalTemporary(entry.name))
      else Ok(Accessor(entry.name, opts.lifecycle.value, opts.critical, opts.autoBump, opts.policy, entry.argTypes,
                       entry.valueType))
  }

  function AccessorsOf(entries: seq<Entry>): Result<seq<Accessor>, SchemaError> {
    if entries == [] then Ok([])
    else
      match AccessorOf(entries[0])
      case Err(e) => Err(e)
      case Ok(first) =>
        match AccessorsOf(entries[1..])
        case Err(e) => Err(e)
        case Ok(others) => Ok([first] + others)
  }

  /** The whole macro: the accessors it generates, or the first error. */
  function Expand(ts: seq<Token>): Result<seq<Accessor>, SchemaError> {
    match Entries(ts)
    case None => Err(SyntaxError)
    case Some(entries) => if entries == [] then Err(NoEntries) else AccessorsOf(entries)
  }

  method GenStorage(entries: seq<Entry>) returns (result: Result<seq<Accessor>, SchemaError>)
    ensures result == if entries == [] then Err(NoEntries) else AccessorsOf(entries)
  {
    if entries == [] {
      return Err(NoEntries);
    }
    var accessors: seq<Accessor> := [];
    assert entries[0..] == entries;
    assert AccessorsOf(entries).Ok? ==> accessors + AccessorsOf(entries).value == AccessorsOf(entries).value;
    for i := 0 to |entries|
      invariant AccessorsOf(entries) ==
        (match AccessorsOf(entries[i..]) case Ok(others) => Ok(accessors + others) case Err(e) => Err(e))
    {
      var entry := entries[i];
      assert entries[i..][0] == entry && entries[i..][1..] == entries[i + 1..];
      var merged := MergeOpts(entry.attrs);
      if merged.Err? {
        return Err(merged.error);
      }
      var opts := merged.value;
      if opts.lifecycle.None? {
        return Err(MissingLifecycle(entry.name));
      }
      if opts.critical && opts.lifecycle == Some(Temporary) {
        return Err(CriticalTemporary(entry.name));
      }
      var accessor := Accessor(entry.name, opts.lifecycle.value, opts.critical, opts.autoBump, opts.policy,
                               entry.argTypes, entry.valueType);
      AddsInFront(accessors, accessor, AccessorsOf(entries[i + 1..]));
      accessors := accessors + [accessor];
    }
    assert accessors + [] == accessors;
    result := Ok(accessors);
  }

  lemma AddsInFront(found: seq<Accessor>, one: Accessor, others: Result<seq<Accessor>, SchemaError>)
    ensures others.Ok? ==> found + ([one] + others.value) == (found + [one]) + others.value
  {
  }

  method Storage(ts: seq<Token>) returns (result: Result<seq<Accessor>, SchemaError>)
    ensures result == Expand(ts)
  {
    var entries := ParseInput(ts);
    if entries.None? {
      return Err(SyntaxError);
    }
    result := GenStorage(entries.value);
  }
}

/** The linter's own reading of the same schema. */
module LintParser {
  import opened Wrappers
  import opened Ttl
  import opened SchemaTokens
  import opened SchemaGrammar

  datatype Decl = Decl(attrs: seq<Attribute>, name: string, valueType: string)

  datatype StorageDecl = StorageDecl(lifecycle: Lifecycle, variant: string, critical: bool, valueType: string)

  predicate IsSpace(c: char) {
    c == ' ' || c == '\n' || c == '\t' || c == '\r'
  }

  /** A type spelling without its blanks, so that formatting makes no difference. */
  function Normalize(text: string): string {
    if text == "" then "" else (if IsSpace(text[0]) then "" else [text[0]]) + Normalize(text[1..])
  }

  // ---------------------------------------------------------------------------
  // Entries
  // ---------------------------------------------------------------------------

  /** The linter skips the key arguments, and takes exactly the lists of types. */
  method ConsumeArgs(content: seq<Token>) returns (consumed: bool)
    ensures consumed <==> IsArgList(content)
  {
    var rest := content;
    while rest != []
      invariant IsArgList(rest) <==> IsArgList(content)
      decreases |rest|
    {
      if !IsType(rest[0]) {
        return false;
      }
      ArgsWithoutFirst(rest);
      rest := rest[1..];
      if Starts(rest, Comma) {
        rest := rest[1..];
      } else {
        break;
      }
    }
    consumed := rest == [];
  }

  lemma ArgsWithoutFirst(ts: seq<Token>)
    requires ts != []
    ensures IsArgList(ts) <==>
      IsType(ts[0]) && (|ts| == 1 || (ts[1] == Comma && IsArgList(ts[1..][1..])))
  {
    if |ts| > 1 {
      assert forall i :: 0 <= i < |ts| - 2 ==> ts[1..][1..][i] == ts[i + 2];
      assert forall i :: 2 <= i < |ts| ==> ts[i] == ts[1..][1..][i - 2];
    }
  }

  function FirstDecl(ts: seq<Token>): Option<(Decl, seq<Token>)> {
    var (attrs, rest) := LeadingAttrs(ts);
    if |rest| >= 5 && rest[0].Ident? && rest[1].Parens? && IsArgList(rest[1].inner)
       && rest[2] == Arrow && IsType(rest[3]) && rest[4] == Comma
    then Some((Decl(attrs, rest[0].name, TextOf(rest[3])), rest[5..]))
    else None
  }

  function Decls(ts: seq<Token>): Option<seq<Decl>>
    decreases |ts|
  {
    if ts == [] then Some([])
    else
      AttrsShorten(ts);
      match FirstDecl(ts)
      case None => None
      case Some((decl, rest)) =>
        match Decls(rest)
        case Some(more) => Some([decl] + more)
        case None => None
  }

  method ParseDecl(ts: seq<Token>) returns (parsed: Option<(Decl, seq<Token>)>)
    ensures parsed == FirstDecl(ts)
  {
    var (attrs, rest) := LeadingAttrs(ts);
    if |rest| < 2 || !rest[0].Ident? || !rest[1].Parens? {
      return None;
    }
    var consumed := ConsumeArgs(rest[1].inner);
    if !consumed || |rest| < 5 || rest[2] != Arrow || !IsType(rest[3]) || rest[4] != Comma {
      return None;
    }
    parsed := Some((Decl(attrs, rest[0].name, TextOf(rest[3])), rest[5..]));
  }

  method ParseDecls(ts: seq<Token>) returns (decls: Option<seq<Decl>>)
    ensures decls == Decls(ts)
  {
    var found: seq<Decl> := [];
    var rest := ts;
    assert Decls(ts).Some? ==> found + Decls(ts).value == Decls(ts).value;
    while rest != []
      invariant Decls(ts) == if Decls(rest).Some? then Some(found + Decls(rest).value) else None
      decreases |rest|
    {
      AttrsShorten(rest);
      var parsed := ParseDecl(rest);
      if parsed.None? {
        return None;
      }
      ghost var others := Decls(parsed.value.1);
      assert others.Some? ==> found + ([parsed.value.0] + others.value) == found + [parsed.value.0] + others.value;
      found, rest := found + [parsed.value.0], parsed.value.1;
    }
    assert found + [] == found;
    decls := Some(found);
  }

  // ---------------------------------------------------------------------------
  // Attributes
  // ---------------------------------------------------------------------------

  datatype Marks = Marks(lifecycle: Option<Lifecycle>, critical: bool)

  function Mark(marks: Marks, word: string): Marks {
    if LifecycleOf(word).Some? then marks.(lifecycle := LifecycleOf(word))
    else if word == "critical" then marks.(critical := true)
    else marks
  }

  /** Words and commas only; an attribute that is not consumed to its end is given up. */
  function MarksFrom(marks: Marks, ts: seq<Token>): Option<Marks>
    decreases |ts|
  {
    var (marks', rest) := if ts != [] && ts[0].Ident? then (Mark(marks, ts[0].name), ts[1..]) else (marks, ts);
    if Starts(rest, Comma) then MarksFrom(marks', rest[1..])
    else if rest == [] then Some(marks')
    else None
  }

  const UNMARKED := Marks(None, false)

  method ScanMarks(ts: seq<Token>) returns (scanned: Option<Marks>)
    ensures scanned == MarksFrom(UNMARKED, ts)
  {
    var marks := UNMARKED;
    var rest := ts;
    while true
      invariant MarksFrom(marks, rest) == MarksFrom(UNMARKED, ts)
      decreases |rest|
    {
      if rest != [] && rest[0].Ident? {
        marks, rest := Mark(marks, rest[0].name), rest[1..];
      }
      if Starts(rest, Comma) {
        rest := rest[1..];
      } else {
        return if rest == [] then Some(marks) else None;
      }
    }
  }

  /** What one attribute contributes, when it is a storage attribute that can be read. */
  function AttrMarks(attr: Attribute): Option<Marks> {
    if attr.path == "storage" && attr.meta.Args? then MarksFrom(UNMARKED, attr.meta.tokens) else None
  }

  function MergeMarks(attrs: seq<Attribute>): Marks {
    if attrs == [] then UNMARKED
    else
      var n := |attrs| - 1;
      var merged := MergeMarks(attrs[..n]);
      match AttrMarks(attrs[n])
      case None => merged
      case Some(marks) =>
        Marks(if merged.lifecycle.None? then marks.lifecycle else merged.lifecycle, merged.critical || marks.critical)
  }

  function DeclOf(decl: Decl): StorageDecl {
    var marks := MergeMarks(decl.attrs);
    StorageDecl(if marks.lifecycle.Some? then marks.lifecycle.value else Persistent,
                decl.name, marks.critical, Normalize(decl.valueType))
  }

  method ReadAttrs(attrs: seq<Attribute>) returns (merged: Marks)
    ensures merged == MergeMarks(attrs)
  {
    merged := UNMARKED;
    for i := 0 to |attrs|
      invariant merged == MergeMarks(attrs[..i])
    {
      assert attrs[..i + 1][..i] == attrs[..i];
      var attr := attrs[i];
      if attr.path != "storage" || !attr.meta.Args? {
        continue;
      }
      var scanned := ScanMarks(attr.meta.tokens);
      if scanned.None? {
        continue;
      }
      if merged.lifecycle.None? {
        merged := merged.(lifecycle := scanned.value.lifecycle);
      }
      merged := merged.(critical := merged.critical || scanned.value.critical);
    }
    assert attrs[..|attrs|] == attrs;
  }

  function DeclsOf(decls: seq<Decl>): seq<StorageDecl> {
    seq(|decls|, i requires 0 <= i < |decls| => DeclOf(decls[i]))
  }

  /** The linter's model of a schema; one it cannot parse has no declarations. */
  function StorageDecls(ts: seq<Token>): seq<StorageDecl> {
    match Decls(ts)
    case Some(decls) => DeclsOf(decls)
    case None => []
  }

  method ParseStorageDecl(ts: seq<Token>) returns (decls: seq<StorageDecl>)
    ensures decls == StorageDecls(ts)
  {
    var parsed := ParseDecls(ts);
    decls := [];
    if parsed.Some? {
      for i := 0 to |parsed.value|
        invariant |decls| == i
        invariant forall j :: 0 <= j < i ==> decls[j] == DeclOf(parsed.value[j])
      {
        var decl := parsed.value[i];
        var marks := ReadAttrs(decl.attrs);
        decls := decls + [StorageDecl(if marks.lifecycle.Some? then marks.lifecycle.value else Persistent,
                                      decl.name, marks.critical, Normalize(decl.valueType))];
      }
    }
  }
}
