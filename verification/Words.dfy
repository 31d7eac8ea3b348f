/** Camel-case word splitting of type names, and the naming heuristic built on it. */
module Words {
  /** Unicode's character classes and lower-casing, as far as the splitter uses them. */
  datatype Chars = Chars(
    alphanumeric: char -> bool, uppercase: char -> bool, lowercase: char -> bool, numeric: char -> bool,
    lower: string -> string)

  const CRITICAL_HINTS: set<string> := {
    "balance", "amount", "fund", "collateral", "position", "ledger", "escrow", "vault", "reserve", "deposit",
    "allowance", "debt", "credit", "asset", "token", "share", "reward", "claim"
  }

  /** A word ends between `x` and `y`. */
  predicate Cuts(u: Chars, x: char, y: char) {
    (u.uppercase(y) || u.numeric(y)) && (u.lowercase(x) || u.numeric(x))
  }

  /** A word ends before position `k`, between two characters of `s`. */
  predicate CutAt(u: Chars, s: string, k: nat) {
    0 < k < |s| && Cuts(u, s[k - 1], s[k])
  }

  /** `s[a..b]` is a run of alphanumerics without a cut inside. */
  ghost predicate Uncut(u: Chars, s: string, a: nat, b: nat) {
    && a <= b <= |s|
    && (forall k :: a <= k < b ==> u.alphanumeric(s[k]))
    && (forall k :: a < k < b ==> !CutAt(u, s, k))
  }

  /** No word reaches across position `k`. */
  ghost predicate Boundary(u: Chars, s: string, k: nat)
    requires k <= |s|
  {
    k == 0 || k == |s| || !u.alphanumeric(s[k - 1]) || !u.alphanumeric(s[k]) || CutAt(u, s, k)
  }

  /** `s[a..b]` is a word: a non-empty uncut run between two boundaries. */
  ghost predicate IsWord(u: Chars, s: string, a: nat, b: nat) {
    a < b && Uncut(u, s, a, b) && Boundary(u, s, a) && Boundary(u, s, b)
  }

  datatype Span = Span(from: nat, to: nat)

  ghost predicate WordSpan(u: Chars, s: string, span: Span) {
    IsWord(u, s, span.from, span.to)
  }

  /** The spans are words of `s`, left to right, and cover every alphanumeric before `limit`. */
  ghost predicate Splits(u: Chars, s: string, spans: seq<Span>, limit: nat) {
    && (forall i :: 0 <= i < |spans| ==> WordSpan(u, s, spans[i]) && spans[i].to <= limit)
    && (forall i, j :: 0 <= i < j < |spans| ==> spans[i].to <= spans[j].from)
    && (forall k :: 0 <= k < limit && k < |s| && u.alphanumeric(s[k]) ==> Covered(spans, k))
  }

  ghost predicate Covered(spans: seq<Span>, k: nat) {
    exists i :: 0 <= i < |spans| && spans[i].from <= k < spans[i].to
  }

  ghost predicate Spelled(s: string, spans: seq<Span>, words: seq<string>) {
    && |words| == |spans|
    && forall i :: 0 <= i < |spans| ==> spans[i].from <= spans[i].to <= |s| && words[i] == s[spans[i].from..spans[i].to]
  }

  lemma CoverMore(spans: seq<Span>, span: Span, k: nat)
    ensures Covered(spans, k) || span.from <= k < span.to ==> Covered(spans + [span], k)
  {
    if Covered(spans, k) {
      var i :| 0 <= i < |spans| && spans[i].from <= k < spans[i].to;
      assert (spans + [span])[i] == spans[i];
    } else {
      assert (spans + [span])[|spans|] == span;
    }
  }

  lemma SplitsMore(u: Chars, s: string, spans: seq<Span>, span: Span)
    requires Splits(u, s, spans, span.from) && WordSpan(u, s, span)
    ensures Splits(u, s, spans + [span], span.to)
  {
    assert span.from < span.to;
    hide WordSpan, Covered;
    forall k | 0 <= k < span.to && k < |s| && u.alphanumeric(s[k])
      ensures Covered(spans + [span], k)
    {
      CoverMore(spans, span, k);
    }
  }

  lemma SplitsSkip(u: Chars, s: string, spans: seq<Span>, k: nat)
    requires Splits(u, s, spans, k) && k < |s| && !u.alphanumeric(s[k])
    ensures Splits(u, s, spans, k + 1)
  {
  }

  lemma SpelledMore(s: string, spans: seq<Span>, words: seq<string>, span: Span)
    requires Spelled(s, spans, words) && span.from <= span.to <= |s|
    ensures Spelled(s, spans + [span], words + [s[span.from..span.to]])
  {
  }

  /** Before position `i`: the finished words, and the open run `current` that ends there. */
  ghost predicate Reading(u: Chars, s: string, i: nat, current: string, words: seq<string>, spans: seq<Span>) {
    && |current| <= i <= |s| && current == s[i - |current|..i]
    && Uncut(u, s, i - |current|, i)
    && Boundary(u, s, i - |current|)
    && (current == "" ==> i == 0 || !u.alphanumeric(s[i - 1]))
    && Splits(u, s, spans, i - |current|) && Spelled(s, spans, words)
  }

  /** The open run ends here as a word. */
  lemma Closes(u: Chars, s: string, i: nat, current: string, words: seq<string>, spans: seq<Span>)
    requires Reading(u, s, i, current, words, spans) && current != "" && Boundary(u, s, i)
    ensures
      var spans' := spans + [Span(i - |current|, i)];
      Splits(u, s, spans', i) && Spelled(s, spans', words + [current])
  {
    hide Splits, Spelled, Uncut, Boundary;
    var span := Span(i - |current|, i);
    assert WordSpan(u, s, span);
    SplitsMore(u, s, spans, span);
    SpelledMore(s, spans, words, span);
  }

  lemma UncutMore(u: Chars, s: string, a: nat, i: nat)
    requires i < |s| && Uncut(u, s, a, i) && u.alphanumeric(s[i]) && (a < i ==> !CutAt(u, s, i))
    ensures Uncut(u, s, a, i + 1)
  {
    hide CutAt;
  }

  /** The open run takes one more character. */
  lemma ReadsOn(u: Chars, s: string, i: nat, current: string, words: seq<string>, spans: seq<Span>)
    requires i < |s| && Reading(u, s, i, current, words, spans) && u.alphanumeric(s[i])
    requires current != "" ==> !CutAt(u, s, i)
    ensures Reading(u, s, i + 1, current + [s[i]], words, spans)
  {
    hide Splits, Spelled, Uncut, Boundary, CutAt;
    var a := i - |current|;
    UncutMore(u, s, a, i);
    assert s[a..i + 1] == s[a..i] + [s[i]];
  }

  /** The open run ends, and the next character opens another. */
  lemma ReadsCut(u: Chars, s: string, i: nat, current: string, words: seq<string>, spans: seq<Span>)
    requires i < |s| && Reading(u, s, i, current, words, spans) && u.alphanumeric(s[i])
    requires current != "" && CutAt(u, s, i)
    ensures Reading(u, s, i + 1, [s[i]], words + [current], spans + [Span(i - |current|, i)])
  {
    hide Splits, Spelled;
    Closes(u, s, i, current, words, spans);
  }

  /** A character that is not alphanumeric ends the open run, if there is one. */
  lemma ReadsGap(u: Chars, s: string, i: nat, current: string, words: seq<string>, spans: seq<Span>)
    requires i < |s| && Reading(u, s, i, current, words, spans) && !u.alphanumeric(s[i])
    ensures current == "" ==> Reading(u, s, i + 1, "", words, spans)
    ensures current != "" ==> Reading(u, s, i + 1, "", words + [current], spans + [Span(i - |current|, i)])
  {
    hide Splits, Spelled;
    if current == "" {
      SplitsSkip(u, s, spans, i);
    } else {
      Closes(u, s, i, current, words, spans);
      SplitsSkip(u, s, spans + [Span(i - |current|, i)], i);
    }
  }

  /** `words` are the words of the input, in order and before lower-casing. */
  ghost predicate IsSplit(u: Chars, s: string, words: seq<string>) {
    exists spans :: Splits(u, s, spans, |s|) && Spelled(s, spans, words)
  }

  /** The words before lower-casing. */
  method SplitRaw(u: Chars, s: string) returns (words: seq<string>)
    ensures IsSplit(u, s, words)
  {
    hide Splits, Spelled, Uncut, Boundary;
    ghost var spans: seq<Span>;
    words, spans := [], [];
    var current := "";
    NothingRead(u, s);
    for i := 0 to |s|
      invariant Reading(u, s, i, current, words, spans)
    {
      var ch := s[i];
      if u.alphanumeric(ch) {
        var cut := false;
        if current != "" && (u.uppercase(ch) || u.numeric(ch)) {
          var prev := current[|current| - 1];
          assert prev == s[i - 1];
          cut := u.lowercase(prev) || u.numeric(prev);
        }
        if cut {
          ReadsCut(u, s, i, current, words, spans);
          words, spans := words + [current], spans + [Span(i - |current|, i)];
          current := "";
          assert current + [ch] == [ch];
        } else {
          ReadsOn(u, s, i, current, words, spans);
        }
        current := current + [ch];
      } else {
        ReadsGap(u, s, i, current, words, spans);
        if current != "" {
          words, spans := words + [current], spans + [Span(i - |current|, i)];
          current := "";
        }
      }
    }
    if current != "" {
      AtTheEnd(u, s);
      Closes(u, s, |s|, current, words, spans);
      words, spans := words + [current], spans + [Span(|s| - |current|, |s|)];
    }
  }

  lemma AtTheEnd(u: Chars, s: string)
    ensures Boundary(u, s, |s|)
  {
  }

  lemma NothingRead(u: Chars, s: string)
    ensures Reading(u, s, 0, "", [], [])
  {
  }

  /** Two words that share a position are the same word. */
  lemma WordsDoNotOverlap(u: Chars, s: string, a: Span, b: Span, k: nat)
    requires WordSpan(u, s, a) && WordSpan(u, s, b)
    requires a.from <= k < a.to && b.from <= k < b.to
    ensures a == b
  {
    NoBoundaryInside(u, s, a, b.from);
    NoBoundaryInside(u, s, a, b.to);
    NoBoundaryInside(u, s, b, a.from);
    NoBoundaryInside(u, s, b, a.to);
  }

  lemma NoBoundaryInside(u: Chars, s: string, a: Span, k: nat)
    requires WordSpan(u, s, a)
    ensures a.from < k < a.to ==> !Boundary(u, s, k)
  {
  }

  /** The spans of a split are exactly the words of the input that end by its limit. */
  lemma SplitsExactly(u: Chars, s: string, spans: seq<Span>, limit: nat, span: Span)
    requires Splits(u, s, spans, limit)
    ensures span in spans <==> WordSpan(u, s, span) && span.to <= limit
  {
    if WordSpan(u, s, span) && span.to <= limit {
      assert u.alphanumeric(s[span.from]);
      var i :| 0 <= i < |spans| && spans[i].from <= span.from < spans[i].to;
      WordsDoNotOverlap(u, s, span, spans[i], span.from);
    }
  }

  /** There is only one way to split. */
  lemma {:induction false} SpansAreUnique(u: Chars, s: string, a: seq<Span>, b: seq<Span>, limit: nat)
    requires Splits(u, s, a, limit) && Splits(u, s, b, limit)
    ensures a == b
    decreases |a|
  {
    if a == [] {
      if b != [] {
        SplitsExactly(u, s, b, limit, b[0]);
        SplitsExactly(u, s, a, limit, b[0]);
      }
    } else {
      var n := |a| - 1;
      SplitsExactly(u, s, a, limit, a[n]);
      SplitsExactly(u, s, b, limit, a[n]);
      LastInBoth(u, s, a, b, limit);
      SplitsBefore(u, s, a, limit);
      SplitsBefore(u, s, b, limit);
      hide Splits;
      SpansAreUnique(u, s, a[..n], b[..|b| - 1], a[n].from);
      SameEnds(a, b);
    }
  }

  lemma SameEnds(a: seq<Span>, b: seq<Span>)
    requires a != [] && b != [] && a[..|a| - 1] == b[..|b| - 1] && a[|a| - 1] == b[|b| - 1]
    ensures a == b
  {
    assert a == a[..|a| - 1] + [a[|a| - 1]];
    assert b == b[..|b| - 1] + [b[|b| - 1]];
  }

  lemma LastInBoth(u: Chars, s: string, a: seq<Span>, b: seq<Span>, limit: nat)
    requires Splits(u, s, a, limit) && Splits(u, s, b, limit) && a != [] && b != []
    ensures a[|a| - 1] == b[|b| - 1]
  {
    var last, other := a[|a| - 1], b[|b| - 1];
    SplitsExactly(u, s, a, limit, last);
    SplitsExactly(u, s, b, limit, last);
    SplitsExactly(u, s, b, limit, other);
    SplitsExactly(u, s, a, limit, other);
    LastIsLast(u, s, a, limit, other);
    LastIsLast(u, s, b, limit, last);
  }

  lemma LastIsLast(u: Chars, s: string, spans: seq<Span>, limit: nat, span: Span)
    requires Splits(u, s, spans, limit) && span in spans
    ensures span == spans[|spans| - 1] || span.to < spans[|spans| - 1].to
  {
    assert WordSpan(u, s, spans[|spans| - 1]);
  }

  /** The split of an input is determined. */
  lemma SplitIsUnique(u: Chars, s: string, a: seq<string>, b: seq<string>)
    requires IsSplit(u, s, a) && IsSplit(u, s, b)
    ensures a == b
  {
    var spansA :| Splits(u, s, spansA, |s|) && Spelled(s, spansA, a);
    var spansB :| Splits(u, s, spansB, |s|) && Spelled(s, spansB, b);
    SpansAreUnique(u, s, spansA, spansB, |s|);
  }

  /** The words, lower-cased. */
  ghost predicate IsLowerSplit(u: Chars, s: string, words: seq<string>) {
    exists raw :: IsSplit(u, s, raw) && Lowered(u, raw, words)
  }

  ghost predicate Lowered(u: Chars, raw: seq<string>, words: seq<string>) {
    |words| == |raw| && forall i :: 0 <= i < |raw| ==> words[i] == u.lower(raw[i])
  }

  method SplitWords(u: Chars, s: string) returns (words: seq<string>)
    ensures IsLowerSplit(u, s, words)
  {
    var raw := SplitRaw(u, s);
    words := seq(|raw|, i requires 0 <= i < |raw| => u.lower(raw[i]));
    assert Lowered(u, raw, words);
  }

  /** Some word of the name, lower-cased, is a hint. */
  ghost predicate HasCriticalWord(u: Chars, s: string) {
    exists span: Span :: HintAt(u, s, span)
  }

  ghost predicate HintAt(u: Chars, s: string, span: Span) {
    WordSpan(u, s, span) && u.lower(s[span.from..span.to]) in CRITICAL_HINTS
  }

  /** A name of a single lower-case word is critical exactly when it is one of the eighteen hints. */
  lemma SingleWordIsCritical(u: Chars, name: string)
    requires name != "" && u.lower(name) == name
    requires forall i :: 0 <= i < |name| ==> u.alphanumeric(name[i]) && !u.uppercase(name[i]) && !u.numeric(name[i])
    ensures HasCriticalWord(u, name) <==>
      name in {"balance", "amount", "fund", "collateral", "position", "ledger", "escrow", "vault", "reserve",
               "deposit", "allowance", "debt", "credit", "asset", "token", "share", "reward", "claim"}
  {
    var span := Span(0, |name|);
    assert name[0..|name|] == name;
    assert WordSpan(u, name, span);
    if name in CRITICAL_HINTS {
      assert HintAt(u, name, span);
    }
    if other :| HintAt(u, name, other) {
      WordsDoNotOverlap(u, name, span, other, other.from);
    }
  }

  /** A type name looks critical exactly when one of its words, lower-cased, is a hint. */
  method TypeLooksCritical(u: Chars, s: string) returns (critical: bool)
    ensures critical <==> HasCriticalWord(u, s)
  {
    hide IsLowerSplit, HasCriticalWord;
    var words := SplitWords(u, s);
    critical := AnyHint(words);
    HintsAreCriticalWords(u, s, words);
  }

  predicate AnyHint(words: seq<string>) {
    exists i :: 0 <= i < |words| && words[i] in CRITICAL_HINTS
  }

  lemma HintsAreCriticalWords(u: Chars, s: string, words: seq<string>)
    requires IsLowerSplit(u, s, words)
    ensures AnyHint(words) <==> HasCriticalWord(u, s)
  {
    hide Splits, Spelled, Lowered, AnyHint, HasCriticalWord;
    var raw :| IsSplit(u, s, raw) && Lowered(u, raw, words);
    var spans :| Splits(u, s, spans, |s|) && Spelled(s, spans, raw);
    if AnyHint(words) {
      HintIsWord(u, s, spans, raw, words);
    }
    if HasCriticalWord(u, s) {
      WordIsHint(u, s, spans, raw, words);
    }
  }

  lemma HintIsWord(u: Chars, s: string, spans: seq<Span>, raw: seq<string>, words: seq<string>)
    requires Splits(u, s, spans, |s|) && Spelled(s, spans, raw) && Lowered(u, raw, words) && AnyHint(words)
    ensures HasCriticalWord(u, s)
  {
    hide Splits, WordSpan;
    var i :| 0 <= i < |words| && words[i] in CRITICAL_HINTS;
    SplitsExactly(u, s, spans, |s|, spans[i]);
    assert HintAt(u, s, spans[i]);
  }

  lemma WordIsHint(u: Chars, s: string, spans: seq<Span>, raw: seq<string>, words: seq<string>)
    requires Splits(u, s, spans, |s|) && Spelled(s, spans, raw) && Lowered(u, raw, words) && HasCriticalWord(u, s)
    ensures AnyHint(words)
  {
    hide Splits;
    var span :| HintAt(u, s, span);
    SplitsExactly(u, s, spans, |s|, span);
    var i :| 0 <= i < |spans| && spans[i] == span;
    assert words[i] in CRITICAL_HINTS;
  }

  function Concat(words: seq<string>): string {
    if words == [] then "" else Concat(words[..|words| - 1]) + words[|words| - 1]
  }

  function Kept(u: Chars, s: string): string {
    if s == "" then ""
    else Kept(u, s[..|s| - 1]) + if u.alphanumeric(s[|s| - 1]) then [s[|s| - 1]] else ""
  }

  lemma {:induction false} KeepsRun(u: Chars, s: string, a: nat, b: nat)
    requires a <= b <= |s| && forall k :: a <= k < b ==> u.alphanumeric(s[k])
    ensures Kept(u, s[..b]) == Kept(u, s[..a]) + s[a..b]
    decreases b - a
  {
    if a < b {
      KeepsRun(u, s, a, b - 1);
      assert s[..b][..b - 1] == s[..b - 1];
      assert s[a..b] == s[a..b - 1] + [s[b - 1]];
    } else {
      assert s[a..b] == "";
    }
  }

  lemma {:induction false} DropsGap(u: Chars, s: string, a: nat, b: nat)
    requires a <= b <= |s| && forall k :: a <= k < b ==> !u.alphanumeric(s[k])
    ensures Kept(u, s[..b]) == Kept(u, s[..a])
    decreases b - a
  {
    if a < b {
      DropsGap(u, s, a, b - 1);
      assert s[..b][..b - 1] == s[..b - 1];
    }
  }

  /** The words, in order, make up the alphanumeric characters of the input, and none is empty. */
  lemma WordsSpellTheInput(u: Chars, s: string, words: seq<string>)
    requires IsSplit(u, s, words)
    ensures Concat(words) == Kept(u, s) && NoneEmpty(words)
  {
    var spans :| Splits(u, s, spans, |s|) && Spelled(s, spans, words);
    SpansSpellTheInput(u, s, spans, words, |s|);
    assert s[..|s|] == s;
  }

  lemma {:induction false} SpansSpellTheInput(u: Chars, s: string, spans: seq<Span>, words: seq<string>, limit: nat)
    requires Splits(u, s, spans, limit) && Spelled(s, spans, words) && limit <= |s|
    ensures Concat(words) == Kept(u, s[..limit]) && NoneEmpty(words)
    decreases |spans|
  {
    hide Splits, Kept, Spelled, Concat, NoneEmpty;
    if spans == [] {
      NothingSpelled(u, s, spans, words, limit);
    } else {
      var n := |spans| - 1;
      SplitsBefore(u, s, spans, limit);
      LastWordKept(u, s, spans, limit);
      SpelledBefore(s, spans, words);
      SpansSpellTheInput(u, s, spans[..n], words[..n], spans[n].from);
      OneWordMore(words);
      ConcatLast(words);
    }
  }

  lemma ConcatLast(words: seq<string>)
    requires words != []
    ensures Concat(words) == Concat(words[..|words| - 1]) + words[|words| - 1]
  {
  }

  predicate NoneEmpty(words: seq<string>) {
    forall i :: 0 <= i < |words| ==> words[i] != ""
  }

  lemma OneWordMore(words: seq<string>)
    requires words != []
    ensures
      var n := |words| - 1;
      NoneEmpty(words[..n]) && words[n] != "" ==> NoneEmpty(words)
  {
    var n := |words| - 1;
    if NoneEmpty(words[..n]) && words[n] != "" {
      forall i | 0 <= i < |words|
        ensures words[i] != ""
      {
        assert i < n ==> words[..n][i] == words[i];
      }
    }
  }

  lemma NothingSpelled(u: Chars, s: string, spans: seq<Span>, words: seq<string>, limit: nat)
    requires Splits(u, s, spans, limit) && Spelled(s, spans, words) && spans == [] && limit <= |s|
    ensures words == [] && Concat(words) == Kept(u, s[..limit]) == "" && NoneEmpty(words)
  {
    NothingCovered(u, s, spans, 0, limit);
    DropsGap(u, s, 0, limit);
    assert s[..0] == "";
  }

  /** Up to the limit, what is kept is what was kept before the last word, and the last word. */
  lemma LastWordKept(u: Chars, s: string, spans: seq<Span>, limit: nat)
    requires Splits(u, s, spans, limit) && spans != [] && limit <= |s|
    ensures
      var last := spans[|spans| - 1];
      && last.from < last.to <= limit
      && Kept(u, s[..limit]) == Kept(u, s[..last.from]) + s[last.from..last.to]
  {
    var last := spans[|spans| - 1];
    LastSpan(u, s, spans, limit);
    NothingCovered(u, s, spans, last.to, limit);
    hide Splits;
    KeepsRun(u, s, last.from, last.to);
    DropsGap(u, s, last.to, limit);
  }

  lemma SpelledBefore(s: string, spans: seq<Span>, words: seq<string>)
    requires Spelled(s, spans, words) && spans != []
    ensures
      var n := |spans| - 1;
      && |words| == |spans| && Spelled(s, spans[..n], words[..n])
      && spans[n].from <= spans[n].to <= |s| && words[n] == s[spans[n].from..spans[n].to]
  {
  }

  lemma LastSpan(u: Chars, s: string, spans: seq<Span>, limit: nat)
    requires Splits(u, s, spans, limit) && spans != [] && limit <= |s|
    ensures
      var last := spans[|spans| - 1];
      && last.from < last.to <= limit
      && (forall k :: last.from <= k < last.to ==> u.alphanumeric(s[k]))
      && (forall i :: 0 <= i < |spans| ==> spans[i].to <= last.to)
  {
    var last := spans[|spans| - 1];
    assert WordSpan(u, s, last);
  }

  /** After the last span nothing is alphanumeric. */
  lemma NothingCovered(u: Chars, s: string, spans: seq<Span>, from: nat, limit: nat)
    requires Splits(u, s, spans, limit) && limit <= |s|
    requires forall i :: 0 <= i < |spans| ==> spans[i].to <= from
    ensures forall k :: from <= k < limit ==> !u.alphanumeric(s[k])
  {
    forall k | from <= k < limit
      ensures !u.alphanumeric(s[k])
    {
      NotCovered(spans, k);
    }
  }

  lemma NotCovered(spans: seq<Span>, k: nat)
    requires forall i :: 0 <= i < |spans| ==> spans[i].to <= k
    ensures !Covered(spans, k)
  {
  }

  lemma SplitsBefore(u: Chars, s: string, spans: seq<Span>, limit: nat)
    requires Splits(u, s, spans, limit) && spans != []
    ensures Splits(u, s, spans[..|spans| - 1], spans[|spans| - 1].from)
  {
    var n := |spans| - 1;
    var before, last := spans[..n], spans[n];
    forall k | 0 <= k < last.from && k < |s| && u.alphanumeric(s[k])
      ensures Covered(before, k)
    {
      assert last.from < last.to <= limit;
      CoveredBefore(spans, k);
    }
  }

  lemma CoveredBefore(spans: seq<Span>, k: nat)
    requires spans != [] && Covered(spans, k) && k < spans[|spans| - 1].from
    ensures Covered(spans[..|spans| - 1], k)
  {
    var i :| 0 <= i < |spans| && spans[i].from <= k < spans[i].to;
    assert spans[..|spans| - 1][i] == spans[i];
  }
}
