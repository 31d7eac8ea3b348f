/** Where the macro and the linter read the same schema alike, and where they do not. */
module SchemaAgreement {
  import opened Wrappers
  import opened Ttl
  import opened SchemaTokens
  import opened SchemaGrammar
  import opened MacroParser
  import opened LintParser

  // ---------------------------------------------------------------------------
  // What an attribute says, read off its tokens
  // ---------------------------------------------------------------------------

  /** The option words of an argument list: its identifiers, but for the right-hand sides of `=`. */
  function Words(ts: seq<Token>): seq<string> {
    if ts == [] then []
    else if ts[0] == Equals then if |ts| == 1 then [] else Words(ts[2..])
    else if ts[0].Ident? then [ts[0].name] + Words(ts[1..])
    else Words(ts[1..])
  }

  function Later<T>(a: Option<T>, b: Option<T>): Option<T> {
    if b.Some? then b else a
  }

  function LastLifecycle(words: seq<string>): Option<Lifecycle> {
    if words == [] then None else Later(LifecycleOf(words[0]), LastLifecycle(words[1..]))
  }

  predicate HasArgs(attr: Attribute) {
    attr.path == "storage" && attr.meta.Args?
  }

  /** The lifecycle an attribute names; the last one counts within an attribute. */
  function Named(attr: Attribute): Option<Lifecycle> {
    if HasArgs(attr) then LastLifecycle(Words(attr.meta.tokens)) else None
  }

  predicate NamesCritical(attr: Attribute) {
    HasArgs(attr) && "critical" in Words(attr.meta.tokens)
  }

  predicate UsesEquals(attr: Attribute) {
    HasArgs(attr) && Equals in attr.meta.tokens
  }

  function LastNamed(attrs: seq<Attribute>): Option<Lifecycle> {
    if attrs == [] then None else Later(LastNamed(attrs[..|attrs| - 1]), Named(attrs[|attrs| - 1]))
  }

  /** The first lifecycle named by an attribute without an `=` option. */
  function FirstPlain(attrs: seq<Attribute>): Option<Lifecycle> {
    if attrs == [] then None
    else
      var before, last := FirstPlain(attrs[..|attrs| - 1]), attrs[|attrs| - 1];
      if before.Some? || UsesEquals(last) then before else Named(last)
  }

  predicate AnyCritical(attrs: seq<Attribute>) {
    exists i :: 0 <= i < |attrs| && NamesCritical(attrs[i])
  }

  predicate AnyPlainCritical(attrs: seq<Attribute>) {
    exists i :: 0 <= i < |attrs| && NamesCritical(attrs[i]) && !UsesEquals(attrs[i])
  }

  // ---------------------------------------------------------------------------
  // What the two parsers make of an attribute
  // ---------------------------------------------------------------------------

  lemma {:induction false} MacroReadsWords(opts: StorageOpts, ts: seq<Token>)
    requires OptionsFrom(opts, ts).Ok?
    ensures
      var read := OptionsFrom(opts, ts).value;
      && read.lifecycle == Later(opts.lifecycle, LastLifecycle(Words(ts)))
      && (read.critical <==> opts.critical || "critical" in Words(ts))
    decreases |ts|
  {
    if ts != [] {
      var (opts', rest) := OneOption(opts, ts).value;
      assert rest == ts[1..] || (|ts| >= 3 && ts[1] == Equals && rest == ts[3..]);
      if Starts(rest, Comma) {
        MacroReadsWords(opts', rest[1..]);
      }
      HeadWord(ts, rest);
    }
  }

  /** An option contributes its own word and nothing else. */
  lemma HeadWord(ts: seq<Token>, rest: seq<Token>)
    requires ts != [] && ts[0].Ident?
    requires rest == ts[1..] || (|ts| >= 3 && ts[1] == Equals && rest == ts[3..])
    requires rest == [] || rest[0] == Comma
    ensures Words(ts) == [ts[0].name] + Words(rest)
    ensures Words(rest) == if rest == [] then [] else Words(rest[1..])
  {
    if rest != ts[1..] {
      assert ts[1..][2..] == ts[3..];
    }
  }

  /** The linter reads the same words, and gives an attribute up exactly when it uses `=`. */
  lemma {:induction false} LinterReadsWords(opts: StorageOpts, marks: Marks, ts: seq<Token>)
    requires OptionsFrom(opts, ts).Ok?
    ensures MarksFrom(marks, ts) ==
      if Equals in ts then None
      else Some(Marks(Later(marks.lifecycle, LastLifecycle(Words(ts))), marks.critical || "critical" in Words(ts)))
    decreases |ts|
  {
    if ts != [] {
      var (opts', rest) := OneOption(opts, ts).value;
      HeadWord(ts, rest);
      if rest == ts[1..] {
        if Starts(rest, Comma) {
          assert ts == [ts[0], Comma] + rest[1..];
          LinterReadsWords(opts', Mark(marks, ts[0].name), rest[1..]);
        } else {
          assert ts == [ts[0]];
        }
      } else {
        assert ts[1] == Equals;
      }
    }
  }

  lemma {:induction false} MacroMerges(attrs: seq<Attribute>)
    requires Merge(attrs).Ok?
    ensures Merge(attrs).value.lifecycle == LastNamed(attrs)
    ensures Merge(attrs).value.critical <==> AnyCritical(attrs)
  {
    if attrs != [] {
      var n := |attrs| - 1;
      MacroMerges(attrs[..n]);
      if attrs[n].path == "storage" {
        MacroReadsWords(NO_OPTIONS, attrs[n].meta.tokens);
      }
      assert AnyCritical(attrs) <==> AnyCritical(attrs[..n]) || NamesCritical(attrs[n]) by {
        CriticalSplits(attrs);
      }
    }
  }

  lemma CriticalSplits(attrs: seq<Attribute>)
    requires attrs != []
    ensures
      var n := |attrs| - 1;
      && (AnyCritical(attrs) <==> AnyCritical(attrs[..n]) || NamesCritical(attrs[n]))
      && (AnyPlainCritical(attrs) <==>
            AnyPlainCritical(attrs[..n]) || (NamesCritical(attrs[n]) && !UsesEquals(attrs[n])))
  {
    var n := |attrs| - 1;
    if AnyCritical(attrs[..n]) {
      var i :| 0 <= i < n && NamesCritical(attrs[..n][i]);
      assert attrs[i] == attrs[..n][i];
    }
    if AnyPlainCritical(attrs[..n]) {
      var i :| 0 <= i < n && NamesCritical(attrs[..n][i]) && !UsesEquals(attrs[..n][i]);
      assert attrs[i] == attrs[..n][i];
    }
    if AnyCritical(attrs) {
      var i :| 0 <= i <= n && NamesCritical(attrs[i]);
      assert i < n ==> attrs[..n][i] == attrs[i];
    }
    if AnyPlainCritical(attrs) {
      var i :| 0 <= i <= n && NamesCritical(attrs[i]) && !UsesEquals(attrs[i]);
      assert i < n ==> attrs[..n][i] == attrs[i];
    }
  }

  lemma {:induction false} LinterMerges(attrs: seq<Attribute>)
    requires Merge(attrs).Ok?
    ensures MergeMarks(attrs) == Marks(FirstPlain(attrs), AnyPlainCritical(attrs))
  {
    if attrs != [] {
      var n := |attrs| - 1;
      LinterMerges(attrs[..n]);
      CriticalSplits(attrs);
      if attrs[n].path == "storage" {
        LinterReadsWords(NO_OPTIONS, UNMARKED, attrs[n].meta.tokens);
      }
    }
  }

  // ---------------------------------------------------------------------------
  // What the linter makes of any attribute, accepted by the macro or not
  // ---------------------------------------------------------------------------

  /** Words and commas only, and a comma between any two words. */
  predicate IsWordList(ts: seq<Token>) {
    && (forall i :: 0 <= i < |ts| ==> ts[i].Ident? || ts[i] == Comma)
    && (forall i :: 0 < i < |ts| ==> !(ts[i - 1].Ident? && ts[i].Ident?))
  }

  lemma WordListWithout(ts: seq<Token>, n: nat)
    requires n <= |ts| && (n < |ts| ==> n == 0 || ts[n - 1] == Comma || ts[n] == Comma)
    ensures IsWordList(ts) <==> IsWordList(ts[..n]) && IsWordList(ts[n..])
  {
    var a, b := ts[..n], ts[n..];
    if IsWordList(a) && IsWordList(b) {
      forall i | 0 <= i < |ts|
        ensures ts[i].Ident? || ts[i] == Comma
      {
        assert if i < n then a[i] == ts[i] else b[i - n] == ts[i];
      }
      forall i | 0 < i < |ts|
        ensures !(ts[i - 1].Ident? && ts[i].Ident?)
      {
        assert if i < n then a[i] == ts[i] && a[i - 1] == ts[i - 1] else i == n || (b[i - n] == ts[i] && b[i - n - 1] == ts[i - 1]);
      }
    }
  }

  /** The linter reads exactly the lists of words; whatever the words are, it takes lifecycles and `critical` from them. */
  lemma {:induction false} LinterReadsExactly(marks: Marks, ts: seq<Token>)
    ensures MarksFrom(marks, ts) ==
      if !IsWordList(ts) then None
      else Some(Marks(Later(marks.lifecycle, LastLifecycle(Words(ts))), marks.critical || "critical" in Words(ts)))
    decreases |ts|
  {
    var n := if ts != [] && ts[0].Ident? then 1 else 0;
    var marks' := if n == 1 then Mark(marks, ts[0].name) else marks;
    var rest := ts[n..];
    assert n == 0 ==> rest == ts;
    if Starts(rest, Comma) {
      LinterReadsExactly(marks', rest[1..]);
      assert rest[1..] == ts[n + 1..];
      WordListWithout(ts, n + 1);
      assert IsWordList(ts[..n + 1]);
      assert Words(rest) == Words(rest[1..]);
    } else if rest == [] {
      assert IsWordList(ts);
    } else {
      assert ts[n] == rest[0];
    }
  }

  predicate LinterReads(attr: Attribute) {
    HasArgs(attr) && IsWordList(attr.meta.tokens)
  }

  /** The first lifecycle named by an attribute the linter reads. */
  function FirstRead(attrs: seq<Attribute>): Option<Lifecycle> {
    if attrs == [] then None
    else
      var before, last := FirstRead(attrs[..|attrs| - 1]), attrs[|attrs| - 1];
      if before.Some? || !LinterReads(last) then before else Named(last)
  }

  predicate AnyReadCritical(attrs: seq<Attribute>) {
    exists i :: 0 <= i < |attrs| && LinterReads(attrs[i]) && NamesCritical(attrs[i])
  }

  lemma {:induction false} LinterMergesExactly(attrs: seq<Attribute>)
    ensures MergeMarks(attrs) == Marks(FirstRead(attrs), AnyReadCritical(attrs))
  {
    if attrs != [] {
      var n := |attrs| - 1;
      LinterMergesExactly(attrs[..n]);
      ReadCriticalSplits(attrs);
      if HasArgs(attrs[n]) {
        LinterReadsExactly(UNMARKED, attrs[n].meta.tokens);
      }
      hide IsWordList, Words, MarksFrom, AnyReadCritical;
    }
  }

  lemma ReadCriticalSplits(attrs: seq<Attribute>)
    requires attrs != []
    ensures
      var n := |attrs| - 1;
      AnyReadCritical(attrs) <==> AnyReadCritical(attrs[..n]) || (LinterReads(attrs[n]) && NamesCritical(attrs[n]))
  {
    hide LinterReads, NamesCritical;
    var n := |attrs| - 1;
    if AnyReadCritical(attrs[..n]) {
      var i :| 0 <= i < n && LinterReads(attrs[..n][i]) && NamesCritical(attrs[..n][i]);
      assert attrs[i] == attrs[..n][i];
    }
    if AnyReadCritical(attrs) {
      var i :| 0 <= i <= n && LinterReads(attrs[i]) && NamesCritical(attrs[i]);
      assert i < n ==> attrs[..n][i] == attrs[i];
    }
  }

  /**
   * The linter's declaration of any entry: the first lifecycle it reads, or `persistent` when it reads none; critical
   * when it reads that anywhere; and the value type as it is spelled, without blanks.
   */
  lemma DeclExactly(decl: Decl)
    ensures
      var declared := DeclOf(decl);
      && declared.variant == decl.name
      && declared.lifecycle == (match FirstRead(decl.attrs) case Some(lifecycle) => lifecycle case None => Persistent)
      && (declared.critical <==> AnyReadCritical(decl.attrs))
      && declared.valueType == Normalize(decl.valueType)
  {
    LinterMergesExactly(decl.attrs);
  }

  predicate IsBlank(c: char) {
    c in {' ', '\n', '\t', '\r'}
  }

  /** Normalising a text normalises its parts. */
  lemma {:induction false} NormalizeConcat(a: string, b: string)
    ensures Normalize(a + b) == Normalize(a) + Normalize(b)
  {
    if a == "" {
      assert a + b == b;
    } else {
      assert (a + b)[1..] == a[1..] + b;
      NormalizeConcat(a[1..], b);
    }
  }

  /** Blanks go, and everything else stays in its order. */
  lemma {:induction false} NormalizeExactly(text: string)
    ensures (forall i :: 0 <= i < |text| ==> !IsBlank(text[i])) ==> Normalize(text) == text
    ensures (forall i :: 0 <= i < |text| ==> IsBlank(text[i])) ==> Normalize(text) == ""
    ensures forall c :: c in Normalize(text) <==> c in text && !IsBlank(c)
  {
    if text != "" {
      NormalizeExactly(text[1..]);
      assert text == [text[0]] + text[1..];
      hide IsBlank;
      assert IsSpace(text[0]) == IsBlank(text[0]) by {
        SpaceIsBlank(text[0]);
      }
    }
  }

  lemma SpaceIsBlank(c: char)
    ensures IsSpace(c) <==> IsBlank(c)
  {
  }

  // ---------------------------------------------------------------------------
  // Agreement
  // ---------------------------------------------------------------------------

  /** The lifecycle the linter goes by: the first named without an `=` beside it, or `persistent` when there is none. */
  function PlainOrPersistent(attrs: seq<Attribute>): Lifecycle {
    match FirstPlain(attrs)
    case Some(lifecycle) => lifecycle
    case None => Persistent
  }

  /** The condition on the lifecycles of one entry: that one is also the last lifecycle named at all. */
  predicate LifecyclesAlike(attrs: seq<Attribute>) {
    LastNamed(attrs) == Some(PlainOrPersistent(attrs))
  }

  /**
   * The condition on all attributes of one entry: besides, where `critical` is said, it is also said without an `=`
   * beside it.
   */
  predicate ReadAlike(attrs: seq<Attribute>) {
    LifecyclesAlike(attrs) && (AnyCritical(attrs) ==> AnyPlainCritical(attrs))
  }

  predicate Matches(decl: StorageDecl, accessor: Accessor) {
    && decl.variant == accessor.name && decl.valueType == Normalize(accessor.valueType)
    && decl.lifecycle == accessor.lifecycle && decl.critical == accessor.critical
  }

  /**
   * How the two parsers read one entry: the same name and value type, the lifecycle each goes by, and agreement
   * exactly on attributes that are read alike.
   */
  predicate ReadSideBySide(entry: Entry, decl: StorageDecl, accessor: Accessor) {
    && decl.variant == accessor.name == entry.name
    && decl.valueType == Normalize(accessor.valueType)
    && decl.lifecycle == PlainOrPersistent(entry.attrs)
    && LastNamed(entry.attrs) == Some(accessor.lifecycle)
    && (decl.lifecycle == accessor.lifecycle <==> LifecyclesAlike(entry.attrs))
    && (Matches(decl, accessor) <==> ReadAlike(entry.attrs))
  }

  lemma EntryAgreement(entry: Entry)
    requires AccessorOf(entry).Ok?
    ensures
      var decl := DeclOf(Decl(entry.attrs, entry.name, entry.valueType));
      ReadSideBySide(entry, decl, AccessorOf(entry).value)
  {
    MacroMerges(entry.attrs);
    LinterMerges(entry.attrs);
    PlainIsCritical(entry.attrs);
  }

  lemma PlainIsCritical(attrs: seq<Attribute>)
    ensures AnyPlainCritical(attrs) ==> AnyCritical(attrs)
  {
  }

  /** The two parsers take the same tokens for the first entry. */
  lemma SameEntry(ts: seq<Token>)
    ensures FirstEntry(ts).Some? <==> FirstDecl(ts).Some?
    ensures FirstEntry(ts).Some? ==>
      var (entry, rest) := FirstEntry(ts).value;
      FirstDecl(ts).value == (Decl(entry.attrs, entry.name, entry.valueType), rest)
  {
  }

  function AsDecls(entries: seq<Entry>): seq<Decl> {
    seq(|entries|, i requires 0 <= i < |entries| => Decl(entries[i].attrs, entries[i].name, entries[i].valueType))
  }

  /** Both parsers see the same entries in the same order, or none. */
  lemma {:induction false} SameEntries(ts: seq<Token>)
    ensures Decls(ts) ==
      match Entries(ts)
      case Some(entries) => Some(AsDecls(entries))
      case None => None
    decreases |ts|
  {
    assert AsDecls([]) == [];
    if ts != [] {
      AttrsShorten(ts);
      SameEntry(ts);
      if FirstEntry(ts).Some? {
        var (entry, rest) := FirstEntry(ts).value;
        SameEntries(rest);
        if Entries(rest).Some? {
          var others := Entries(rest).value;
          assert AsDecls([entry] + others) == [Decl(entry.attrs, entry.name, entry.valueType)] + AsDecls(others);
        }
      }
    }
  }

  /** The linter's declarations of any token list: one per entry, in order, and none when it does not spell entries. */
  lemma DeclsExactly(ts: seq<Token>)
    ensures
      match Entries(ts)
      case None => StorageDecls(ts) == []
      case Some(entries) =>
        && |StorageDecls(ts)| == |entries|
        && forall i :: 0 <= i < |entries| ==>
             StorageDecls(ts)[i] == DeclOf(Decl(entries[i].attrs, entries[i].name, entries[i].valueType))
  {
    hide DeclOf;
    SameEntries(ts);
  }

  lemma {:induction false} AccessorsInOrder(entries: seq<Entry>)
    requires AccessorsOf(entries).Ok?
    ensures |AccessorsOf(entries).value| == |entries|
    ensures forall i :: 0 <= i < |entries| ==> AccessorOf(entries[i]) == Ok(AccessorsOf(entries).value[i])
  {
    if entries != [] {
      AccessorsInOrder(entries[1..]);
    }
  }

  /**
   * For every schema the macro accepts, the linter finds the same entries in the same order with the same value types,
   * and it gives each the macro's lifecycle and criticality exactly when the entry's attributes are read alike.
   */
  lemma ParsersAgreeExactly(ts: seq<Token>)
    requires Expand(ts).Ok?
    ensures
      var decls, accessors, entries := StorageDecls(ts), Expand(ts).value, Entries(ts).value;
      && |decls| == |accessors| == |entries|
      && forall i :: 0 <= i < |decls| ==> ReadSideBySide(entries[i], decls[i], accessors[i])
  {
    hide ReadSideBySide, DeclOf, AccessorOf;
    var entries := Entries(ts).value;
    SameEntries(ts);
    AccessorsInOrder(entries);
    forall i | 0 <= i < |entries|
      ensures AccessorOf(entries[i]).Ok?
      ensures
        var decl := DeclOf(Decl(entries[i].attrs, entries[i].name, entries[i].valueType));
        ReadSideBySide(entries[i], decl, AccessorOf(entries[i]).value)
    {
      EntryAgreement(entries[i]);
    }
  }

  /** One attribute at most names a lifecycle, and none puts a lifecycle or `critical` beside an `=` option. */
  predicate KeepsApart(attrs: seq<Attribute>) {
    && (forall i, j :: 0 <= i < j < |attrs| ==> Named(attrs[i]).None? || Named(attrs[j]).None?)
    && (forall i :: 0 <= i < |attrs| && UsesEquals(attrs[i]) ==> Named(attrs[i]).None? && !NamesCritical(attrs[i]))
  }

  lemma {:induction false} ApartIsReadAlike(attrs: seq<Attribute>)
    requires KeepsApart(attrs)
    ensures FirstPlain(attrs) == LastNamed(attrs)
    ensures LastNamed(attrs).Some? ==> exists i :: 0 <= i < |attrs| && Named(attrs[i]).Some?
  {
    if attrs != [] {
      var n := |attrs| - 1;
      ApartIsReadAlike(attrs[..n]);
      if LastNamed(attrs[..n]).Some? {
        var i :| 0 <= i < n && Named(attrs[..n][i]).Some?;
        assert Named(attrs[i]).Some?;
      }
    }
  }

  /** Schemas that keep lifecycles, and the options with `=`, in attributes of their own are read alike throughout. */
  lemma TidySchemasAgree(ts: seq<Token>)
    requires Expand(ts).Ok?
    requires forall entry :: entry in Entries(ts).value ==> KeepsApart(entry.attrs)
    ensures
      var decls, accessors := StorageDecls(ts), Expand(ts).value;
      |decls| == |accessors| && forall i :: 0 <= i < |decls| ==> Matches(decls[i], accessors[i])
  {
    var entries := Entries(ts).value;
    ParsersAgreeExactly(ts);
    AccessorsInOrder(entries);
    forall i | 0 <= i < |entries|
      ensures ReadAlike(entries[i].attrs)
    {
      var attrs := entries[i].attrs;
      assert entries[i] in entries;
      ApartIsReadAlike(attrs);
      MacroMerges(attrs);
    }
  }

  /** `#[storage(temporary, policy = P)] Nonce(Address) -> u64,`: temporary to the macro, persistent to the linter. */
  lemma PolicyBesideLifecycleIsMisread(policy: string)
    ensures
      var attr := Attribute("storage", Args([Ident("temporary"), Comma, Ident("policy"), Equals, ExprRun(policy)]));
      var ts := [Attr(attr), Ident("Nonce"), Parens([Ident("Address")]), Arrow, Ident("u64"), Comma];
      && Expand(ts).Ok? && |Expand(ts).value| == 1
      && Expand(ts).value[0].name == "Nonce" && Expand(ts).value[0].lifecycle == Temporary
      && |StorageDecls(ts)| == 1
      && StorageDecls(ts)[0].variant == "Nonce" && StorageDecls(ts)[0].lifecycle == Persistent
  {
    var args := [Ident("temporary"), Comma, Ident("policy"), Equals, ExprRun(policy)];
    var attr := Attribute("storage", Args(args));
    var ts := [Attr(attr), Ident("Nonce"), Parens([Ident("Address")]), Arrow, Ident("u64"), Comma];
    var attrs := [attr];
    assert ts[1..] == [Ident("Nonce"), Parens([Ident("Address")]), Arrow, Ident("u64"), Comma];
    assert LeadingAttrs(ts[1..]) == ([], ts[1..]);
    assert LeadingAttrs(ts) == (attrs, ts[1..]) by {
      assert attrs == [attr] + [];
    }
    var entry := Entry(attrs, "Nonce", ["Address"], "u64");
    assert ts[1..][5..] == [];
    assert ArgTexts([Ident("Address")]) == ["Address"];
    assert FirstEntry(ts) == Some((entry, []));
    assert [entry] + [] == [entry];
    assert Entries([]) == Some([]);
    assert Entries(ts) == Some([entry]);
    var one := NO_OPTIONS.(lifecycle := Some(Temporary));
    assert args[1..][1..] == [Ident("policy"), Equals, ExprRun(policy)];
    assert args[1..][1..][1..][2..] == [];
    assert OptionsFrom(one, args[1..][1..]) == Ok(one.(policy := Some(policy)));
    assert Options(args) == Ok(one.(policy := Some(policy)));
    assert attrs[..0] == [];
    assert Merge(attrs[..0]) == Ok(NOTHING_MERGED);
    assert Merge(attrs).Ok? && Merge(attrs).value.lifecycle == Some(Temporary) && !Merge(attrs).value.critical;
    assert [entry][1..] == [];
    assert AccessorsOf([entry]).Ok?;
    ParsersAgreeExactly(ts);
    LinterMerges(attrs);
    assert Equals == args[3];
    assert UsesEquals(attr);
    assert FirstPlain(attrs) == None;
    SameEntries(ts);
  }

  // ---------------------------------------------------------------------------
  // Auto-bump
  // ---------------------------------------------------------------------------

  /** The last word of an argument list about bumping, and what it says. */
  function LastBump(ts: seq<Token>): Option<bool> {
    if ts == [] then None
    else if ts[0] == Equals then if |ts| == 1 then None else LastBump(ts[2..])
    else Later(HeadBump(ts), LastBump(ts[1..]))
  }

  function HeadBump(ts: seq<Token>): Option<bool>
    requires ts != []
  {
    if ts[0] == Ident("no_bump") then Some(false)
    else if ts[0] != Ident("auto_bump") then None
    else if |ts| >= 3 && ts[1] == Equals && ts[2].Bool? then Some(ts[2].value)
    else Some(true)
  }

  lemma {:induction false} MacroReadsBump(opts: StorageOpts, ts: seq<Token>)
    requires OptionsFrom(opts, ts).Ok?
    ensures OptionsFrom(opts, ts).value.autoBump == (match LastBump(ts) case Some(b) => b case None => opts.autoBump)
    decreases |ts|
  {
    if ts != [] {
      var (opts', rest) := OneOption(opts, ts).value;
      if rest != ts[1..] {
        assert ts[1..][2..] == ts[3..] == rest;
        assert LastBump(ts[1..]) == LastBump(rest);
      }
      if Starts(rest, Comma) {
        assert LastBump(rest) == LastBump(rest[1..]);
        MacroReadsBump(opts', rest[1..]);
      } else {
        assert LastBump(rest) == None;
      }
      assert LastBump(ts) == Later(HeadBump(ts), LastBump(rest));
    }
  }

  // ---------------------------------------------------------------------------
  // Policies
  // ---------------------------------------------------------------------------

  function HeadPolicy(ts: seq<Token>): Option<string>
    requires ts != []
  {
    if ts[0] == Ident("policy") && |ts| >= 3 && ts[1] == Equals then Some(TextOf(ts[2])) else None
  }

  /** The last policy an argument list names. */
  function LastPolicyIn(ts: seq<Token>): Option<string> {
    if ts == [] then None
    else if ts[0] == Equals then if |ts| == 1 then None else LastPolicyIn(ts[2..])
    else Later(HeadPolicy(ts), LastPolicyIn(ts[1..]))
  }

  function PolicyIn(attr: Attribute): Option<string> {
    if HasArgs(attr) then LastPolicyIn(attr.meta.tokens) else None
  }

  /** The last policy the storage attributes name. */
  function LastPolicy(attrs: seq<Attribute>): Option<string> {
    if attrs == [] then None else Later(LastPolicy(attrs[..|attrs| - 1]), PolicyIn(attrs[|attrs| - 1]))
  }

  lemma {:induction false} MacroReadsPolicy(opts: StorageOpts, ts: seq<Token>)
    requires OptionsFrom(opts, ts).Ok?
    ensures OptionsFrom(opts, ts).value.policy == Later(opts.policy, LastPolicyIn(ts))
    decreases |ts|
  {
    if ts != [] {
      var (opts', rest) := OneOption(opts, ts).value;
      if rest != ts[1..] {
        assert ts[1..][2..] == ts[3..] == rest;
        assert LastPolicyIn(ts[1..]) == LastPolicyIn(rest);
      }
      if Starts(rest, Comma) {
        assert LastPolicyIn(rest) == LastPolicyIn(rest[1..]);
        MacroReadsPolicy(opts', rest[1..]);
      } else {
        assert LastPolicyIn(rest) == None;
      }
      assert LastPolicyIn(ts) == Later(HeadPolicy(ts), LastPolicyIn(rest));
    }
  }

  /** The merged policy is the last that any storage attribute names, and there is none when none does. */
  lemma {:induction false} LastPolicyIsMerged(attrs: seq<Attribute>)
    requires Merge(attrs).Ok?
    ensures Merge(attrs).value.policy == LastPolicy(attrs)
  {
    if attrs != [] {
      var n := |attrs| - 1;
      LastPolicyIsMerged(attrs[..n]);
      if attrs[n].path == "storage" {
        MacroReadsPolicy(NO_OPTIONS, attrs[n].meta.tokens);
      }
    }
  }

  function LastStorage(attrs: seq<Attribute>): Option<Attribute> {
    if attrs == [] then None
    else if attrs[|attrs| - 1].path == "storage" then Some(attrs[|attrs| - 1])
    else LastStorage(attrs[..|attrs| - 1])
  }

  /**
   * Whether accessors bump is decided by the last storage attribute alone: they do unless its last word on the matter
   * is `no_bump` or `auto_bump = false`. What earlier attributes say is dropped.
   */
  lemma {:induction false} LastAttributeDecidesBump(attrs: seq<Attribute>)
    requires Merge(attrs).Ok?
    ensures
      match LastStorage(attrs)
      case None => !Merge(attrs).value.autoBump
      case Some(attr) =>
        && attr.meta.Args?
        && Merge(attrs).value.autoBump == (match LastBump(attr.meta.tokens) case Some(b) => b case None => true)
  {
    if attrs != [] {
      var n := |attrs| - 1;
      if attrs[n].path == "storage" {
        MacroReadsBump(NO_OPTIONS, attrs[n].meta.tokens);
      } else {
        LastAttributeDecidesBump(attrs[..n]);
      }
    }
  }

  /** `no_bump` is documented to switch bumping off; a policy in an attribute of its own switches it on again. */
  lemma NoBumpIsDropped(policy: string)
    ensures
      var off := Attribute("storage", Args([Ident("persistent"), Comma, Ident("no_bump")]));
      var with := Attribute("storage", Args([Ident("policy"), Equals, ExprRun(policy)]));
      && Merge([off]).Ok? && !Merge([off]).value.autoBump
      && Merge([off, with]).Ok? && Merge([off, with]).value.autoBump
  {
    var first, second := [Ident("persistent"), Comma, Ident("no_bump")], [Ident("policy"), Equals, ExprRun(policy)];
    var off, with := Attribute("storage", Args(first)), Attribute("storage", Args(second));
    assert first[1..][1..] == [Ident("no_bump")] && [Ident("no_bump")][1..] == [];
    assert second[1..][2..] == [];
    assert Options(first).Ok? && Options(second).Ok?;
    assert [off, with][..1] == [off] && [off][..0] == [];
    assert Merge([]) == Ok(NOTHING_MERGED);
    assert Merge([off]).Ok?;
    assert Merge([off, with]).Ok?;
  }
}
