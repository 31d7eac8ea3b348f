/** Exactly which schemas the macro accepts, in terms of how they are written. */
module SchemaAcceptance {
  import opened Wrappers
  import opened Ttl
  import opened SchemaTokens
  import opened SchemaGrammar
  import opened MacroParser
  import opened SchemaAgreement

  // ---------------------------------------------------------------------------
  // Option lists
  // ---------------------------------------------------------------------------

  /** What one written option sets; the others stay. */
  function Apply(opts: StorageOpts, option: WrittenOption): StorageOpts {
    match option
    case Lives(lifecycle) => opts.(lifecycle := Some(lifecycle))
    case IsCritical => opts.(critical := true)
    case Bumps => opts.(autoBump := true)
    case BumpsIf(flag) => opts.(autoBump := flag)
    case NeverBumps => opts.(autoBump := false)
    case UsesPolicy(policy) => opts.(policy := Some(TextOf(policy)))
  }

  function ApplyAll(opts: StorageOpts, options: seq<WrittenOption>): StorageOpts
    decreases |options|
  {
    if options == [] then opts else ApplyAll(Apply(opts, options[0]), options[1..])
  }

  lemma OptionReadBack(opts: StorageOpts, option: WrittenOption, rest: seq<Token>)
    requires WellFormedOption(option) && (rest == [] || rest[0] == Comma)
    ensures
      var ts := SpellOption(option) + rest;
      ts != [] && ts[0].Ident? && OneOption(opts, ts) == Ok((Apply(opts, option), rest))
  {
    var ts := SpellOption(option) + rest;
    assert ts[1..] == SpellOption(option)[1..] + rest;
    match option {
      case BumpsIf(flag) => assert ts[1..][2..] == rest;
      case UsesPolicy(policy) => assert ts[1..][2..] == rest;
      case _ => assert ts[1..] == rest;
    }
  }

  lemma OptionSpelled(opts: StorageOpts, ts: seq<Token>) returns (option: WrittenOption)
    requires ts != [] && ts[0].Ident? && OneOption(opts, ts).Ok?
    ensures WellFormedOption(option) && Apply(opts, option) == OneOption(opts, ts).value.0
    ensures ts == SpellOption(option) + OneOption(opts, ts).value.1
  {
    var word, rest := ts[0].name, ts[1..];
    assert ts == [Ident(word)] + rest;
    if LifecycleOf(word).Some? {
      option := Lives(LifecycleOf(word).value);
    } else if word == "critical" {
      option := IsCritical;
    } else if word == "auto_bump" {
      if Starts(rest, Equals) {
        option := BumpsIf(rest[1].value);
        assert rest == [Equals, rest[1]] + rest[2..];
      } else {
        option := Bumps;
      }
    } else if word == "no_bump" {
      option := NeverBumps;
    } else {
      option := UsesPolicy(rest[1]);
      assert rest == [Equals, rest[1]] + rest[2..];
    }
  }

  /** Writing an option list out and parsing it applies the options in order. */
  lemma {:induction false} OptionsReadBack(opts: StorageOpts, options: seq<WrittenOption>, trailing: bool)
    requires forall option :: option in options ==> WellFormedOption(option)
    ensures OptionsFrom(opts, SpellOptions(options, trailing)) == Ok(ApplyAll(opts, options))
    decreases |options|
  {
    hide OneOption, SpellOption, Apply;
    var ts := SpellOptions(options, trailing);
    if |options| == 1 {
      var rest := if trailing then [Comma] else [];
      OptionReadBack(opts, options[0], rest);
      assert rest != [] ==> rest[1..] == [];
    } else if options != [] {
      var others := SpellOptions(options[1..], trailing);
      OptionReadBack(opts, options[0], [Comma] + others);
      assert ts == SpellOption(options[0]) + ([Comma] + others);
      assert ([Comma] + others)[1..] == others;
      OptionsReadBack(Apply(opts, options[0]), options[1..], trailing);
    }
  }

  /** Whatever parses has been written so. */
  lemma {:induction false} OptionsSpelled(opts: StorageOpts, ts: seq<Token>)
      returns (options: seq<WrittenOption>, trailing: bool)
    requires OptionsFrom(opts, ts).Ok?
    ensures SpellsOptions(ts, options, trailing)
    decreases |ts|
  {
    hide SpellOption, Apply, WellFormedOption, OneOption;
    if ts == [] {
      options, trailing := [], false;
    } else {
      var first := OptionSpelled(opts, ts);
      var (opts', rest) := OneOption(opts, ts).value;
      if rest == [] || rest == [Comma] {
        options, trailing := [first], rest != [];
        OneOptionSpelled(first, trailing);
      } else {
        var others;
        others, trailing := OptionsSpelled(opts', rest[1..]);
        hide OptionsFrom;
        options := [first] + others;
        assert rest == [Comma] + rest[1..];
        OptionInFront(first, others, trailing);
      }
    }
  }

  lemma OptionInFront(first: WrittenOption, others: seq<WrittenOption>, trailing: bool)
    requires WellFormedOption(first) && others != []
    requires forall option :: option in others ==> WellFormedOption(option)
    ensures SpellsOptions(SpellOption(first) + ([Comma] + SpellOptions(others, trailing)), [first] + others, trailing)
  {
    assert ([first] + others)[1..] == others;
  }

  lemma OneOptionSpelled(option: WrittenOption, trailing: bool)
    requires WellFormedOption(option)
    ensures SpellsOptions(SpellOption(option) + (if trailing then [Comma] else []), [option], trailing)
  {
  }

  /** The option parser succeeds exactly on option lists, and its result is what their options say, in order. */
  lemma OptionsExactly(ts: seq<Token>)
    ensures Options(ts).Ok? <==> IsOptionList(ts)
    ensures forall options, trailing :: SpellsOptions(ts, options, trailing) ==>
      Options(ts) == Ok(ApplyAll(NO_OPTIONS, options))
  {
    if Options(ts).Ok? {
      var options, trailing := OptionsSpelled(NO_OPTIONS, ts);
    }
    forall options, trailing | SpellsOptions(ts, options, trailing)
      ensures Options(ts) == Ok(ApplyAll(NO_OPTIONS, options))
    {
      OptionsReadBack(NO_OPTIONS, options, trailing);
    }
  }

  // ---------------------------------------------------------------------------
  // Entries and schemas
  // ---------------------------------------------------------------------------

  /** Every storage attribute has an argument list, and that is a list of options. */
  ghost predicate Readable(attrs: seq<Attribute>) {
    forall i :: 0 <= i < |attrs| && attrs[i].path == "storage" ==>
      attrs[i].meta.Args? && IsOptionList(attrs[i].meta.tokens)
  }

  lemma {:induction false} MergesExactly(attrs: seq<Attribute>)
    ensures Merge(attrs).Ok? <==> Readable(attrs)
  {
    hide IsOptionList, Options, MergeOne;
    if attrs != [] {
      var n := |attrs| - 1;
      MergesExactly(attrs[..n]);
      assert Readable(attrs) ==> Readable(attrs[..n]);
      if attrs[n].meta.Args? {
        OptionsExactly(attrs[n].meta.tokens);
      }
      assert forall i :: 0 <= i < n ==> attrs[..n][i] == attrs[i];
    }
  }

  /** The attributes of an entry the macro takes: readable, with a lifecycle, and not critical when it is temporary. */
  ghost predicate Acceptable(attrs: seq<Attribute>) {
    && Readable(attrs)
    && LastNamed(attrs).Some?
    && !(AnyCritical(attrs) && LastNamed(attrs) == Some(Temporary))
  }

  lemma EntryAcceptedExactly(entry: Entry)
    ensures AccessorOf(entry).Ok? <==> Acceptable(entry.attrs)
  {
    hide LastNamed, AnyCritical, Merge, Readable;
    MergesExactly(entry.attrs);
    if Merge(entry.attrs).Ok? {
      MacroMerges(entry.attrs);
    }
  }

  lemma {:induction false} AllAcceptedExactly(entries: seq<Entry>)
    ensures AccessorsOf(entries).Ok? <==> forall i :: 0 <= i < |entries| ==> Acceptable(entries[i].attrs)
  {
    hide AccessorOf, Acceptable;
    if entries != [] {
      EntryAcceptedExactly(entries[0]);
      AllAcceptedExactly(entries[1..]);
      if AccessorsOf(entries).Ok? {
        forall i | 0 <= i < |entries|
          ensures Acceptable(entries[i].attrs)
        {
          assert i > 0 ==> entries[i] == entries[1..][i - 1];
        }
      }
    }
  }

  /** A way to write `ts` as a schema without errors. */
  ghost predicate IsSchema(ts: seq<Token>, written: seq<Written>) {
    && Spells(ts, written) && written != []
    && forall i :: 0 <= i < |written| ==> Acceptable(written[i].attrs)
  }

  lemma {:induction false} MeaningsInOrder(written: seq<Written>)
    ensures |MeaningsOf(written)| == |written|
    ensures forall i :: 0 <= i < |written| ==> MeaningsOf(written)[i] == MeaningOf(written[i])
  {
    if written != [] {
      MeaningsInOrder(written[1..]);
    }
  }

  /**
   * The macro accepts a token list exactly when it spells at least one entry, every entry well formed, every storage
   * attribute a list of options, every entry with a lifecycle, and no critical entry temporary.
   */
  lemma ExpandExactly(ts: seq<Token>)
    ensures Expand(ts).Ok? <==> exists written :: IsSchema(ts, written)
  {
    hide Acceptable, Entries, Spells, AccessorsOf;
    AcceptsExactly(ts);
    if Expand(ts).Ok? {
      var written :| Spells(ts, written);
      MeaningsInOrder(written);
      AllAcceptedExactly(MeaningsOf(written));
      assert IsSchema(ts, written);
    }
    if written :| IsSchema(ts, written) {
      MeaningsInOrder(written);
      AllAcceptedExactly(MeaningsOf(written));
    }
  }

  // ---------------------------------------------------------------------------
  // What is generated, and what refusals say
  // ---------------------------------------------------------------------------

  /** Accessors bump unless the last storage attribute says otherwise last. */
  function BumpsByDefault(attrs: seq<Attribute>): bool {
    match LastStorage(attrs)
    case Some(attr) => attr.meta.Args? && LastBump(attr.meta.tokens) != Some(false)
    case None => false
  }

  /** Everything about the accessors of an entry, read off its tokens. */
  lemma AccessorExactly(entry: Entry)
    requires AccessorOf(entry).Ok?
    ensures
      var accessor := AccessorOf(entry).value;
      && accessor.name == entry.name && accessor.argTypes == entry.argTypes && accessor.valueType == entry.valueType
      && LastNamed(entry.attrs) == Some(accessor.lifecycle)
      && (accessor.critical <==> AnyCritical(entry.attrs))
      && (accessor.autoBump <==> BumpsByDefault(entry.attrs))
      && accessor.policy == LastPolicy(entry.attrs)
  {
    MacroMerges(entry.attrs);
    LastAttributeDecidesBump(entry.attrs);
    LastPolicyIsMerged(entry.attrs);
  }

  /** The accessors of an accepted schema, one per entry, in the order the entries are written. */
  lemma ExpandsInOrder(ts: seq<Token>, written: seq<Written>)
    requires Expand(ts).Ok? && Spells(ts, written)
    ensures |Expand(ts).value| == |written|
    ensures forall i :: 0 <= i < |written| ==> GeneratedFrom(Expand(ts).value[i], written[i])
  {
    hide Spells, AccessorOf, GeneratedFrom, Entries;
    AcceptsExactly(ts);
    MeaningsInOrder(written);
    AccessorsInOrder(MeaningsOf(written));
    forall i | 0 <= i < |written|
      ensures GeneratedFrom(Expand(ts).value[i], written[i])
    {
      WrittenIsGenerated(written[i]);
    }
  }

  ghost predicate GeneratedFrom(accessor: Accessor, written: Written) {
    && accessor.name == written.name && accessor.argTypes == ArgTexts(written.args)
    && accessor.valueType == TextOf(written.value)
    && LastNamed(written.attrs) == Some(accessor.lifecycle)
    && (accessor.critical <==> AnyCritical(written.attrs))
    && (accessor.autoBump <==> BumpsByDefault(written.attrs))
    && accessor.policy == LastPolicy(written.attrs)
  }

  lemma WrittenIsGenerated(written: Written)
    requires AccessorOf(MeaningOf(written)).Ok?
    ensures GeneratedFrom(AccessorOf(MeaningOf(written)).value, written)
  {
    AccessorExactly(MeaningOf(written));
  }

  /** A word that is no option. */
  predicate IsUnknown(word: string) {
    word !in {"persistent", "temporary", "instance", "critical", "auto_bump", "no_bump", "policy"}
  }

  /** Options, each with a comma after it. */
  function SpellAhead(options: seq<WrittenOption>): seq<Token> {
    if options == [] then [] else SpellOption(options[0]) + [Comma] + SpellAhead(options[1..])
  }

  /** After well-formed options, each with its comma, comes this word, and anything after it. */
  ghost predicate ReachesWord(ts: seq<Token>, options: seq<WrittenOption>, word: string, rest: seq<Token>) {
    && (forall option :: option in options ==> WellFormedOption(option))
    && ts == SpellAhead(options) + [Ident(word)] + rest
  }

  lemma {:induction false} UnknownIsThere(opts: StorageOpts, ts: seq<Token>, word: string)
      returns (options: seq<WrittenOption>, rest: seq<Token>)
    requires OptionsFrom(opts, ts) == Err(UnknownOption(word))
    ensures IsUnknown(word) && ReachesWord(ts, options, word, rest)
    decreases |ts|
  {
    hide SpellOption, Apply, WellFormedOption;
    var step := OneOption(opts, ts);
    if step.Ok? {
      var first := OptionSpelled(opts, ts);
      var (opts', left) := step.value;
      var others;
      others, rest := UnknownIsThere(opts', left[1..], word);
      options := [first] + others;
      hide OneOption, OptionsFrom;
      assert left == [Comma] + left[1..];
      AheadOneMore(first, others, word, rest);
    } else {
      options, rest := [], ts[1..];
      assert ts == [Ident(word)] + rest;
    }
  }

  lemma AheadOneMore(first: WrittenOption, others: seq<WrittenOption>, word: string, rest: seq<Token>)
    ensures SpellAhead([first] + others) + [Ident(word)] + rest
         == SpellOption(first) + ([Comma] + (SpellAhead(others) + [Ident(word)] + rest))
  {
    assert ([first] + others)[1..] == others;
  }

  lemma {:induction false} UnknownIsReported(opts: StorageOpts, options: seq<WrittenOption>, word: string, rest: seq<Token>)
    requires IsUnknown(word) && forall option :: option in options ==> WellFormedOption(option)
    ensures OptionsFrom(opts, SpellAhead(options) + [Ident(word)] + rest) == Err(UnknownOption(word))
    decreases |options|
  {
    hide SpellOption, Apply;
    var ts := SpellAhead(options) + [Ident(word)] + rest;
    if options == [] {
      assert ts == [Ident(word)] + rest;
    } else {
      hide OneOption;
      var tail := SpellAhead(options[1..]) + [Ident(word)] + rest;
      OptionReadBack(opts, options[0], [Comma] + tail);
      assert ts == SpellOption(options[0]) + ([Comma] + tail);
      assert ([Comma] + tail)[1..] == tail;
      UnknownIsReported(Apply(opts, options[0]), options[1..], word, rest);
    }
  }

  /** A word is reported as unknown exactly when it is no option and everything before it is well-formed options. */
  lemma UnknownExactly(ts: seq<Token>, word: string)
    ensures Options(ts) == Err(UnknownOption(word)) <==>
      IsUnknown(word) && exists options, rest :: ReachesWord(ts, options, word, rest)
  {
    if Options(ts) == Err(UnknownOption(word)) {
      var options, rest := UnknownIsThere(NO_OPTIONS, ts, word);
    }
    if IsUnknown(word) {
      forall options, rest | ReachesWord(ts, options, word, rest)
        ensures Options(ts) == Err(UnknownOption(word))
      {
        UnknownIsReported(NO_OPTIONS, options, word, rest);
      }
    }
  }

  lemma {:induction false} OptionErrors(opts: StorageOpts, ts: seq<Token>)
    requires OptionsFrom(opts, ts).Err?
    ensures OptionsFrom(opts, ts).error.SyntaxError? || OptionsFrom(opts, ts).error.UnknownOption?
    decreases |ts|
  {
    if ts != [] && ts[0].Ident? && OneOption(opts, ts).Ok? {
      var (opts', rest) := OneOption(opts, ts).value;
      if Starts(rest, Comma) {
        OptionErrors(opts', rest[1..]);
      }
    }
  }

  /** Merging fails as the first storage attribute that cannot be read. */
  lemma {:induction false} MergeError(attrs: seq<Attribute>) returns (i: nat)
    requires Merge(attrs).Err?
    ensures i < |attrs| && attrs[i].path == "storage" && AttrOptions(attrs[i]) == Err(Merge(attrs).error)
    ensures Readable(attrs[..i])
  {
    var n := |attrs| - 1;
    if Merge(attrs[..n]).Err? {
      i := MergeError(attrs[..n]);
      assert attrs[..n][..i] == attrs[..i];
    } else {
      MergesExactly(attrs[..n]);
      i := n;
    }
  }

  /** What a refusal of an entry says. */
  ghost predicate RefusedFor(entry: Entry, error: SchemaError) {
    match error
    case MissingLifecycle(name) => name == entry.name && Readable(entry.attrs) && LastNamed(entry.attrs).None?
    case CriticalTemporary(name) =>
      && name == entry.name && Readable(entry.attrs)
      && AnyCritical(entry.attrs) && LastNamed(entry.attrs) == Some(Temporary)
    case UnknownOption(_) => exists i :: 0 <= i < |entry.attrs| && FirstUnreadable(entry.attrs, i, error)
    case SyntaxError => exists i :: 0 <= i < |entry.attrs| && FirstUnreadable(entry.attrs, i, error)
    case NoEntries => false
  }

  /** The first storage attribute that is not a list of options, and whether it is because of an unknown word. */
  ghost predicate FirstUnreadable(attrs: seq<Attribute>, i: nat, error: SchemaError) {
    && i < |attrs| && attrs[i].path == "storage" && Readable(attrs[..i])
    && match error
       case UnknownOption(word) =>
         attrs[i].meta.Args? && IsUnknown(word) && exists options, rest :: ReachesWord(attrs[i].meta.tokens, options, word, rest)
       case _ =>
         attrs[i].meta.Args? ==>
           && !IsOptionList(attrs[i].meta.tokens)
           && forall word, options, rest :: IsUnknown(word) ==> !ReachesWord(attrs[i].meta.tokens, options, word, rest)
  }

  lemma EntryRefusedFor(entry: Entry)
    requires AccessorOf(entry).Err?
    ensures RefusedFor(entry, AccessorOf(entry).error)
  {
    MergesExactly(entry.attrs);
    hide Readable;
    if Merge(entry.attrs).Ok? {
      MacroMerges(entry.attrs);
    } else {
      var error := Merge(entry.attrs).error;
      var i := MergeError(entry.attrs);
      AttributeError(entry.attrs[i], error);
      hide ReachesWord, IsOptionList, IsUnknown;
      assert FirstUnreadable(entry.attrs, i, error);
    }
  }

  /** An attribute that cannot be read is a syntax error, unless an unknown word is reached first. */
  lemma AttributeError(attr: Attribute, error: SchemaError)
    requires AttrOptions(attr) == Err(error)
    ensures error.SyntaxError? || error.UnknownOption?
    ensures error.UnknownOption? ==>
      attr.meta.Args? && IsUnknown(error.name) && exists options, rest :: ReachesWord(attr.meta.tokens, options, error.name, rest)
    ensures error.SyntaxError? && attr.meta.Args? ==> !IsOptionList(attr.meta.tokens)
    ensures error.SyntaxError? && attr.meta.Args? ==>
      forall word, options, rest :: IsUnknown(word) ==> !ReachesWord(attr.meta.tokens, options, word, rest)
  {
    if attr.meta.Args? {
      var ts := attr.meta.tokens;
      OptionErrors(NO_OPTIONS, ts);
      OptionsExactly(ts);
      if error.UnknownOption? {
        UnknownExactly(ts, error.name);
      }
      forall word, options, rest | error.SyntaxError? && IsUnknown(word)
        ensures !ReachesWord(ts, options, word, rest)
      {
        UnknownExactly(ts, word);
      }
    }
  }

  /** The first entry that is not acceptable decides the refusal of a list of entries. */
  lemma {:induction false} FirstRefused(entries: seq<Entry>) returns (i: nat)
    requires AccessorsOf(entries).Err?
    ensures i < |entries| && AccessorOf(entries[i]) == Err(AccessorsOf(entries).error)
    ensures forall j :: 0 <= j < i ==> AccessorOf(entries[j]).Ok?
  {
    hide AccessorOf;
    if AccessorOf(entries[0]).Err? {
      i := 0;
    } else {
      var k := FirstRefused(entries[1..]);
      i := k + 1;
      assert forall j :: 0 < j <= k ==> entries[j] == entries[1..][j - 1];
    }
  }

  /**
   * What the macro's error says: that there is no entry; or something about the first entry that is not acceptable; or
   * that the tokens do not spell entries at all.
   */
  lemma ExpandErrors(ts: seq<Token>)
    requires Expand(ts).Err?
    ensures
      var error := Expand(ts).error;
      match Entries(ts)
      case None => error == SyntaxError
      case Some(entries) =>
        if entries == [] then error == NoEntries
        else exists i :: 0 <= i < |entries| && RefusedFor(entries[i], error)
                         && forall j :: 0 <= j < i ==> Acceptable(entries[j].attrs)
  {
    if Entries(ts).Some? && Entries(ts).value != [] {
      var entries := Entries(ts).value;
      var i := FirstRefused(entries);
      EntryRefusedFor(entries[i]);
      forall j | 0 <= j < i
        ensures Acceptable(entries[j].attrs)
      {
        EntryAcceptedExactly(entries[j]);
      }
      hide RefusedFor, Acceptable, AccessorOf;
    }
  }
}
