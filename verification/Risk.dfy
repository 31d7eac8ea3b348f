/** Eviction-risk classification and the greedy extension batcher. */
module Risk {
  import opened Machine

  datatype RiskLevel = Safe | Watch | Critical

  /** A due entry: its key and how much room it takes in a batch. */
  datatype BatchEntry = BatchEntry(keyXdr: string, sizeBytes: u32)

  function TtlRemaining(liveUntil: u32, current: u32): u32 {
    SatSub(liveUntil, current)
  }

  function Classify(ttl: u32, threshold: u32, extendTo: u32): RiskLevel {
    if ttl <= threshold then Critical
    else if ttl < extendTo then Watch
    else Safe
  }

  predicate ShouldExtend(ttl: u32, threshold: u32) {
    ttl <= threshold
  }

  /**
   * What the levels mean on the ledger: critical entries, and no others, are extended, namely those that run out within
   * the threshold; safe are those that an extension now would not lift; the rest is to be watched.
   */
  lemma RiskMeans(liveUntil: u32, current: u32, threshold: u32, extendTo: u32)
    requires threshold < extendTo
    ensures
      var ttl := TtlRemaining(liveUntil, current);
      var level := Classify(ttl, threshold, extendTo);
      && (level == Critical <==> ShouldExtend(ttl, threshold))
      && (level == Critical <==> liveUntil <= current + threshold)
      && (level == Safe <==> Max(liveUntil, current + extendTo) == liveUntil)
  {
  }

  // ---------------------------------------------------------------------------
  // What a split of the entries into batches is
  // ---------------------------------------------------------------------------

  /** The true, unsaturated size of a batch. */
  function TotalBytes(batch: seq<BatchEntry>): nat {
    if batch == [] then 0 else batch[0].sizeBytes + TotalBytes(batch[1..])
  }

  function Flatten<T>(batches: seq<seq<T>>): seq<T> {
    if batches == [] then [] else batches[0] + Flatten(batches[1..])
  }

  /** A batch the network accepts: one entry on its own, or a total within the cap. */
  predicate Fits(batch: seq<BatchEntry>, cap: nat) {
    |batch| == 1 || TotalBytes(batch) <= cap
  }

  /** `batches` is an order-preserving split of `entries` into acceptable, non-empty batches. */
  ghost predicate Splits(batches: seq<seq<BatchEntry>>, entries: seq<BatchEntry>, cap: nat) {
    && Flatten(batches) == entries
    && forall i :: 0 <= i < |batches| ==> batches[i] != [] && Fits(batches[i], cap)
  }

  /** No batch could have taken the first entry of its successor. */
  ghost predicate Saturated(batches: seq<seq<BatchEntry>>, cap: nat) {
    forall i {:trigger batches[i]} :: 0 <= i && i + 1 < |batches| && batches[i + 1] != [] ==>
      TotalBytes(batches[i]) + batches[i + 1][0].sizeBytes > cap
  }

  // ---------------------------------------------------------------------------
  // The greedy plan
  // ---------------------------------------------------------------------------

  /** How many entries of `rest` join a batch that already holds `bytes`. */
  function Absorbed(bytes: u32, rest: seq<BatchEntry>, cap: u32): (n: nat)
    ensures n <= |rest|
    decreases |rest|
  {
    if rest == [] || SatAdd(bytes, rest[0].sizeBytes) > cap then 0
    else 1 + Absorbed(SatAdd(bytes, rest[0].sizeBytes), rest[1..], cap)
  }

  /** The length of the first batch of a non-empty list of entries. */
  function FirstLength(entries: seq<BatchEntry>, cap: u32): (n: nat)
    requires entries != []
    ensures 1 <= n <= |entries|
  {
    1 + Absorbed(entries[0].sizeBytes, entries[1..], cap)
  }

  function Plan(entries: seq<BatchEntry>, cap: u32): seq<seq<BatchEntry>> {
    if entries == [] then []
    else
      var n := FirstLength(entries, cap);
      [entries[..n]] + Plan(entries[n..], cap)
  }

  /** The batches still to come when `current` is open, holds `bytes` and `rest` is unread. */
  function Resume(current: seq<BatchEntry>, bytes: u32, rest: seq<BatchEntry>, cap: u32): seq<seq<BatchEntry>> {
    if current == [] then Plan(rest, cap)
    else
      var n := Absorbed(bytes, rest, cap);
      [current + rest[..n]] + Plan(rest[n..], cap)
  }

  lemma PlanOpens(rest: seq<BatchEntry>, cap: u32)
    requires rest != []
    ensures Plan(rest, cap) == Resume([rest[0]], rest[0].sizeBytes, rest[1..], cap)
  {
    var n := Absorbed(rest[0].sizeBytes, rest[1..], cap);
    assert FirstLength(rest, cap) == n + 1;
    assert rest[..n + 1] == [rest[0]] + rest[1..][..n];
    assert rest[n + 1..] == rest[1..][n..];
    assert Plan(rest, cap) == [rest[..n + 1]] + Plan(rest[n + 1..], cap);
  }

  /** The rounds of the batching loop that remain when `rest` is unread. */
  function Rounds(batches: seq<seq<BatchEntry>>, current: seq<BatchEntry>, bytes: u32, rest: seq<BatchEntry>, cap: u32)
    : seq<seq<BatchEntry>>
    decreases |rest|
  {
    if rest == [] then
      if current == [] then batches else batches + [current]
    else
      var size := rest[0].sizeBytes;
      if current != [] && SatAdd(bytes, size) > cap then Rounds(batches + [current], [rest[0]], size, rest[1..], cap)
      else Rounds(batches, current + [rest[0]], SatAdd(bytes, size), rest[1..], cap)
  }

  /** The open batch is full: it is closed, and the next entry opens another. */
  lemma ResumeCloses(current: seq<BatchEntry>, bytes: u32, rest: seq<BatchEntry>, cap: u32)
    requires current != [] && rest != [] && SatAdd(bytes, rest[0].sizeBytes) > cap
    ensures Resume(current, bytes, rest, cap) == [current] + Resume([rest[0]], rest[0].sizeBytes, rest[1..], cap)
  {
    PlanOpens(rest, cap);
    hide Plan;
    assert Absorbed(bytes, rest, cap) == 0;
    assert current + rest[..0] == current && rest[0..] == rest;
  }

  /** The open batch takes the next entry. */
  lemma ResumeAbsorbs(current: seq<BatchEntry>, bytes: u32, rest: seq<BatchEntry>, cap: u32)
    requires current != [] && rest != [] && SatAdd(bytes, rest[0].sizeBytes) <= cap
    ensures Resume(current, bytes, rest, cap)
         == Resume(current + [rest[0]], SatAdd(bytes, rest[0].sizeBytes), rest[1..], cap)
  {
    hide Plan;
    var n := Absorbed(SatAdd(bytes, rest[0].sizeBytes), rest[1..], cap);
    assert Absorbed(bytes, rest, cap) == n + 1;
    assert current + rest[..n + 1] == current + [rest[0]] + rest[1..][..n];
    assert rest[n + 1..] == rest[1..][n..];
  }

  lemma NothingToResume(current: seq<BatchEntry>, bytes: u32, cap: u32)
    ensures Resume(current, bytes, [], cap) == if current == [] then [] else [current]
  {
    assert current + [] == current;
  }

  lemma {:induction false} RoundsFinishThePlan(batches: seq<seq<BatchEntry>>, current: seq<BatchEntry>, bytes: u32,
                                               rest: seq<BatchEntry>, cap: u32)
    requires current == [] ==> bytes == 0
    ensures Rounds(batches, current, bytes, rest, cap) == batches + Resume(current, bytes, rest, cap)
    decreases |rest|
  {
    hide Resume;
    if rest == [] {
      NothingToResume(current, bytes, cap);
    } else if current == [] {
      ResumeOpens(bytes, rest, cap);
      assert current + [rest[0]] == [rest[0]];
      RoundsFinishThePlan(batches, [rest[0]], rest[0].sizeBytes, rest[1..], cap);
    } else if SatAdd(bytes, rest[0].sizeBytes) > cap {
      ResumeCloses(current, bytes, rest, cap);
      RoundsFinishThePlan(batches + [current], [rest[0]], rest[0].sizeBytes, rest[1..], cap);
    } else {
      ResumeAbsorbs(current, bytes, rest, cap);
      RoundsFinishThePlan(batches, current + [rest[0]], SatAdd(bytes, rest[0].sizeBytes), rest[1..], cap);
    }
  }

  lemma ResumeOpens(bytes: u32, rest: seq<BatchEntry>, cap: u32)
    requires rest != []
    ensures Resume([], bytes, rest, cap) == Resume([rest[0]], rest[0].sizeBytes, rest[1..], cap)
  {
    PlanOpens(rest, cap);
  }

  method PlanBatches(entries: seq<BatchEntry>, maxBatchBytes: u32) returns (batches: seq<seq<BatchEntry>>)
    ensures batches == Plan(entries, maxBatchBytes)
  {
    batches := [];
    var current: seq<BatchEntry> := [];
    var currentBytes: u32 := 0;
    ghost var goal := Rounds([], [], 0, entries, maxBatchBytes);
    assert entries[0..] == entries;
    for i := 0 to |entries|
      invariant current == [] ==> currentBytes == 0
      invariant Rounds(batches, current, currentBytes, entries[i..], maxBatchBytes) == goal
    {
      var entry := entries[i];
      assert entries[i..][0] == entry && entries[i..][1..] == entries[i + 1..];
      if current != [] && SatAdd(currentBytes, entry.sizeBytes) > maxBatchBytes {
        batches := batches + [current];
        current, currentBytes := [], 0;
      }
      currentBytes := SatAdd(currentBytes, entry.sizeBytes);
      current := current + [entry];
      assert |current| == 1 ==> current == [entry];
    }
    if current != [] {
      batches := batches + [current];
    }
    RoundsFinishThePlan([], [], 0, entries, maxBatchBytes);
  }

  // ---------------------------------------------------------------------------
  // Faithful and bounded
  // ---------------------------------------------------------------------------

  lemma {:induction false} PlanIsFaithful(entries: seq<BatchEntry>, cap: u32)
    ensures Flatten(Plan(entries, cap)) == entries
    ensures forall b :: b in Plan(entries, cap) ==> b != []
  {
    if entries != [] {
      var n := FirstLength(entries, cap);
      PlanIsFaithful(entries[n..], cap);
      assert entries == entries[..n] + entries[n..];
    }
  }

  /** Below `u32::MAX` the saturating test is the true test, and the batch is as long as it can be. */
  lemma {:induction false} AbsorbedIsMaximal(bytes: u32, rest: seq<BatchEntry>, cap: u32)
    requires cap < U32_MAX
    ensures
      var n := Absorbed(bytes, rest, cap);
      && (n > 0 ==> bytes + TotalBytes(rest[..n]) <= cap)
      && (n < |rest| ==> bytes + TotalBytes(rest[..n]) + rest[n].sizeBytes > cap)
    decreases |rest|
  {
    var n := Absorbed(bytes, rest, cap);
    if n > 0 {
      AbsorbedIsMaximal(bytes + rest[0].sizeBytes, rest[1..], cap);
      assert rest[..n][1..] == rest[1..][..n - 1];
    }
  }

  lemma FirstBatchIsMaximal(entries: seq<BatchEntry>, cap: u32)
    requires cap < U32_MAX && entries != []
    ensures
      var n := FirstLength(entries, cap);
      && Fits(entries[..n], cap)
      && (n < |entries| ==> TotalBytes(entries[..n]) + entries[n].sizeBytes > cap)
  {
    var n := FirstLength(entries, cap);
    AbsorbedIsMaximal(entries[0].sizeBytes, entries[1..], cap);
    assert entries[..n][1..] == entries[1..][..n - 1];
  }

  lemma {:induction false} PlanRespectsCap(entries: seq<BatchEntry>, cap: u32)
    requires cap < U32_MAX
    ensures Splits(Plan(entries, cap), entries, cap)
    ensures Saturated(Plan(entries, cap), cap)
  {
    PlanIsFaithful(entries, cap);
    if entries != [] {
      var n := FirstLength(entries, cap);
      FirstBatchIsMaximal(entries, cap);
      PlanRespectsCap(entries[n..], cap);
      var rest := Plan(entries[n..], cap);
      assert Plan(entries, cap) == [entries[..n]] + rest;
      if rest != [] {
        assert rest[0][0] == entries[n..][0];
      }
    }
  }

  /** With the cap at `u32::MAX` the saturated sum never exceeds it: everything is one batch. */
  lemma {:induction false} MaximalCapNeverSplits(entries: seq<BatchEntry>)
    ensures Plan(entries, U32_MAX) == if entries == [] then [] else [entries]
  {
    if entries != [] {
      AbsorbsEverything(entries[0].sizeBytes, entries[1..]);
      assert entries[..|entries|] == entries;
    }
  }

  lemma AbsorbsEverything(bytes: u32, rest: seq<BatchEntry>)
    ensures Absorbed(bytes, rest, U32_MAX) == |rest|
    decreases |rest|
  {
    if rest != [] {
      AbsorbsEverything(SatAdd(bytes, rest[0].sizeBytes), rest[1..]);
    }
  }

  // ---------------------------------------------------------------------------
  // Minimal
  // ---------------------------------------------------------------------------

  lemma {:induction false} TotalOfPrefix(batch: seq<BatchEntry>, n: nat)
    requires n <= |batch|
    ensures TotalBytes(batch) == TotalBytes(batch[..n]) + TotalBytes(batch[n..])
  {
    if n == 0 {
      assert batch[..0] == [] && batch[0..] == batch;
    } else {
      TotalOfPrefix(batch[1..], n - 1);
      assert batch[..n][1..] == batch[1..][..n - 1];
      assert batch[1..][n - 1..] == batch[n..];
    }
  }

  /** A longer prefix holds at least the next entry more. */
  lemma LongerPrefixIsHeavier(batch: seq<BatchEntry>, n: nat, m: nat)
    requires n < m <= |batch|
    ensures TotalBytes(batch[..n]) + batch[n].sizeBytes <= TotalBytes(batch[..m])
  {
    TotalOfPrefix(batch[..m], n);
    assert batch[..m][..n] == batch[..n];
    assert batch[..m][n..][0] == batch[n];
  }

  /** Dropping the first `n` entries of a split leaves a split that is no longer. */
  lemma {:induction false} DropFromSplit(batches: seq<seq<BatchEntry>>, entries: seq<BatchEntry>, n: nat, cap: nat)
      returns (shorter: seq<seq<BatchEntry>>)
    requires Splits(batches, entries, cap) && n <= |entries|
    ensures Splits(shorter, entries[n..], cap) && |shorter| <= |batches|
  {
    if n == 0 {
      assert entries[0..] == entries;
      shorter := batches;
    } else {
      var first, rest := batches[0], batches[1..];
      assert entries == first + Flatten(rest);
      assert Splits(rest, Flatten(rest), cap);
      if n < |first| {
        shorter := [first[n..]] + rest;
        TotalOfPrefix(first, n);
        assert entries[n..] == first[n..] + Flatten(rest);
      } else {
        shorter := DropFromSplit(rest, Flatten(rest), n - |first|, cap);
        assert entries[n..] == Flatten(rest)[n - |first|..];
      }
    }
  }

  /** The greedy first batch reaches at least as far as the first batch of any split. */
  lemma GreedyStaysAhead(batches: seq<seq<BatchEntry>>, entries: seq<BatchEntry>, cap: u32)
    requires cap < U32_MAX && entries != []
    requires Splits(batches, entries, cap)
    ensures batches != [] && |batches[0]| <= FirstLength(entries, cap)
  {
    var n := FirstLength(entries, cap);
    FirstBatchIsMaximal(entries, cap);
    var first := batches[0];
    assert entries == first + Flatten(batches[1..]);
    assert entries[..|first|] == first;
    if |first| > n {
      LongerPrefixIsHeavier(entries, n, |first|);
    }
  }

  /** No order-preserving split into acceptable batches uses fewer batches than the greedy plan. */
  lemma {:induction false} PlanIsMinimal(batches: seq<seq<BatchEntry>>, entries: seq<BatchEntry>, cap: u32)
    requires cap < U32_MAX
    requires Splits(batches, entries, cap)
    ensures |Plan(entries, cap)| <= |batches|
    decreases |entries|
  {
    if entries != [] {
      var n := FirstLength(entries, cap);
      GreedyStaysAhead(batches, entries, cap);
      var first, rest := batches[0], batches[1..];
      assert entries == first + Flatten(rest);
      assert Splits(rest, Flatten(rest), cap);
      var shorter := DropFromSplit(rest, Flatten(rest), n - |first|, cap);
      assert Flatten(rest)[n - |first|..] == entries[n..];
      PlanIsMinimal(shorter, entries[n..], cap);
    }
  }

  /** In a saturated split the first batch reaches as far as the greedy one. */
  lemma FirstSaturatedBatch(batches: seq<seq<BatchEntry>>, entries: seq<BatchEntry>, cap: u32)
    requires cap < U32_MAX && entries != []
    requires Splits(batches, entries, cap) && Saturated(batches, cap) && batches != []
    ensures |batches[0]| >= FirstLength(entries, cap)
  {
    var n := FirstLength(entries, cap);
    FirstBatchIsMaximal(entries, cap);
    var first, rest := batches[0], batches[1..];
    assert entries == first + Flatten(rest) && entries[..|first|] == first;
    if |first| < n {
      assert rest[0] == batches[1] && entries[|first|] == rest[0][0];
      LongerPrefixIsHeavier(entries, |first|, n);
    }
  }

  /** The plan is the only acceptable split in which no batch could have taken one entry more. */
  lemma {:induction false} PlanIsTheSaturatedSplit(batches: seq<seq<BatchEntry>>, entries: seq<BatchEntry>, cap: u32)
    requires cap < U32_MAX
    ensures Splits(batches, entries, cap) && Saturated(batches, cap) <==> batches == Plan(entries, cap)
    decreases |batches|
  {
    PlanRespectsCap(entries, cap);
    if Splits(batches, entries, cap) && Saturated(batches, cap) {
      hide Splits, Saturated, FirstLength;
      if entries == [] {
        NothingToSplit(batches, cap);
      } else {
        FirstIsGreedy(batches, entries, cap);
        PlanIsTheSaturatedSplit(batches[1..], entries[FirstLength(entries, cap)..], cap);
      }
    }
  }

  lemma NothingToSplit(batches: seq<seq<BatchEntry>>, cap: u32)
    requires Splits(batches, [], cap)
    ensures batches == []
  {
  }

  /** A saturated split begins with the greedy batch and goes on as a saturated split of what that leaves. */
  lemma FirstIsGreedy(batches: seq<seq<BatchEntry>>, entries: seq<BatchEntry>, cap: u32)
    requires cap < U32_MAX && entries != []
    requires Splits(batches, entries, cap) && Saturated(batches, cap)
    ensures
      var n := FirstLength(entries, cap);
      && batches != [] && batches[0] == entries[..n]
      && Splits(batches[1..], entries[n..], cap) && Saturated(batches[1..], cap)
  {
    var n := FirstLength(entries, cap);
    GreedyStaysAhead(batches, entries, cap);
    FirstSaturatedBatch(batches, entries, cap);
    hide FirstLength;
    var first, rest := batches[0], batches[1..];
    assert entries == first + Flatten(rest);
    assert first == entries[..n] && Flatten(rest) == entries[n..];
    assert forall i :: 0 <= i < |rest| ==> rest[i] == batches[i + 1];
  }

  // ---------------------------------------------------------------------------
  // How many batches
  // ---------------------------------------------------------------------------

  /** Neighbouring batches exceed the cap together, so half of them account for a cap each. */
  lemma {:induction false} PairsExceedCap(batches: seq<seq<BatchEntry>>, entries: seq<BatchEntry>, cap: nat)
    requires Splits(batches, entries, cap) && Saturated(batches, cap)
    ensures (|batches| / 2) * (cap + 1) <= TotalBytes(entries)
    decreases |batches|
  {
    if |batches| >= 2 {
      var a, b, rest := batches[0], batches[1], batches[2..];
      var tail := Flatten(rest);
      assert batches[1..][1..] == rest && batches[1..][0] == b;
      assert Flatten(batches[1..]) == b + tail;
      assert entries == a + (b + tail);
      TotalOfPrefix(entries, |a|);
      assert entries[..|a|] == a && entries[|a|..] == b + tail;
      TotalOfPrefix(b + tail, |b|);
      assert (b + tail)[..|b|] == b && (b + tail)[|b|..] == tail;
      assert TotalBytes(a) + b[0].sizeBytes > cap;
      assert forall i :: 0 <= i < |rest| ==> rest[i] == batches[i + 2];
      PairsExceedCap(rest, tail, cap);
      assert |batches| / 2 == |rest| / 2 + 1;
      assert (|rest| / 2 + 1) * (cap + 1) == (|rest| / 2) * (cap + 1) + (cap + 1);
    }
  }

  lemma PlanCountBound(entries: seq<BatchEntry>, cap: u32)
    requires cap < U32_MAX
    ensures |Plan(entries, cap)| <= 1 + 2 * (TotalBytes(entries) / (cap + 1))
  {
    var count, total := |Plan(entries, cap)|, TotalBytes(entries);
    PlanRespectsCap(entries, cap);
    PairsExceedCap(Plan(entries, cap), entries, cap);
    QuotientBound(count / 2, cap + 1, total);
  }

  lemma QuotientBound(q: nat, d: nat, total: nat)
    requires d > 0 && q * d <= total
    ensures q <= total / d
  {
    var k := total / d;
    if k < q {
      MultiplyBoth(k, q, d);
    }
  }

  lemma MultiplyBoth(k: nat, q: nat, d: nat)
    requires k < q
    ensures k * d + d <= q * d
  {
    if q == k + 1 {
      assert (k + 1) * d == k * d + d;
    } else {
      MultiplyBoth(k, q - 1, d);
      assert q * d == (q - 1) * d + d;
    }
  }
}
