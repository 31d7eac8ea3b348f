/**
 * The rent keeper as a step system: ledgers close, polls read the ledger once and then fetch and extend watch by
 * watch, calls fail, and other parties raise lifetimes, in any order. The keeper's reading grows stale meanwhile.
 */
module KeepAlive {
  import opened Machine
  import opened Risk
  import opened KeeperRpc
  import opened Keeper
  import KeeperConfig

  datatype System = System(watches: seq<WatchConfig>, cap: u32, size: string -> u32)

  /** What the keeper is doing: nothing, about to fetch watch `next`, or with batches of `watch` left to extend. */
  datatype Phase =
    | Idle
    | Between(current: u32, next: nat)
    | Extending(current: u32, watch: nat, pending: seq<seq<BatchEntry>>)

  datatype State = State(ledger: u32, liveUntil: map<string, u32>, phase: Phase)

  datatype Action = LedgerCloses | OthersRaise | ReadLedger | ReadFails | Fetched | FetchFails | Lands | Fails | EndWatch | EndPoll

  predicate Live(s: State, key: string) {
    key in s.liveUntil && s.ledger < s.liveUntil[key]
  }

  /** What the network reports for the watched keys it knows, in the order they were asked for. */
  function Snapshots(sys: System, liveUntil: map<string, u32>, keys: seq<WatchKey>): seq<EntrySnapshot> {
    if keys == [] then []
    else
      var n := |keys| - 1;
      var key := keys[n].keyXdr;
      Snapshots(sys, liveUntil, keys[..n]) +
      if key in liveUntil then [SnapshotOf(sys, liveUntil, keys[n])] else []
  }

  function DueIn(sys: System, s: State, current: u32, watch: WatchConfig): seq<BatchEntry> {
    Due(Snapshots(sys, s.liveUntil, watch.keys), current, watch.threshold)
  }

  /** No lifetime falls and no entry is removed. */
  ghost predicate OnlyRaised(before: map<string, u32>, after: map<string, u32>) {
    forall key :: key in before ==> key in after && before[key] <= after[key]
  }

  /** A landed extension gives every live key of the batch at least `extendTo` ledgers from now. */
  ghost predicate Extended(s: State, batch: seq<BatchEntry>, extendTo: u32, after: map<string, u32>) {
    && OnlyRaised(s.liveUntil, after)
    && forall i :: 0 <= i < |batch| && Live(s, batch[i].keyXdr) ==>
         batch[i].keyXdr in after && s.ledger + extendTo <= after[batch[i].keyXdr]
  }

  ghost predicate Step(sys: System, s: State, action: Action, s': State) {
    match action
    case LedgerCloses => s.ledger < U32_MAX && s' == s.(ledger := s.ledger + 1)
    case OthersRaise => OnlyRaised(s.liveUntil, s'.liveUntil) && s' == s.(liveUntil := s'.liveUntil)
    case ReadLedger => s.phase == Idle && s' == s.(phase := Between(s.ledger, 0))
    case ReadFails => s.phase == Idle && s' == s
    case Fetched =>
      && s.phase.Between? && s.phase.next < |sys.watches|
      && var due := DueIn(sys, s, s.phase.current, sys.watches[s.phase.next]);
         s' == s.(phase := Extending(s.phase.current, s.phase.next, Plan(due, sys.cap)))
    case FetchFails =>
      && s.phase.Between? && s.phase.next < |sys.watches|
      && s' == s.(phase := Between(s.phase.current, s.phase.next + 1))
    case Lands =>
      && s.phase.Extending? && s.phase.watch < |sys.watches| && s.phase.pending != []
      && Extended(s, s.phase.pending[0], sys.watches[s.phase.watch].extendTo, s'.liveUntil)
      && s' == State(s.ledger, s'.liveUntil, Extending(s.phase.current, s.phase.watch, s.phase.pending[1..]))
    case Fails =>
      && s.phase.Extending? && s.phase.pending != []
      && s' == s.(phase := Extending(s.phase.current, s.phase.watch, s.phase.pending[1..]))
    case EndWatch =>
      s.phase.Extending? && s.phase.pending == [] && s' == s.(phase := Between(s.phase.current, s.phase.watch + 1))
    case EndPoll => s.phase.Between? && s.phase.next == |sys.watches| && s' == s.(phase := Idle)
  }

  datatype Run = Run(states: seq<State>, actions: seq<Action>)

  ghost predicate IsRun(sys: System, run: Run) {
    && |run.states| == |run.actions| + 1
    && forall i :: 0 <= i < |run.actions| ==> Step(sys, run.states[i], run.actions[i], run.states[i + 1])
  }

  // ---------------------------------------------------------------------------
  // The history of one watched key
  // ---------------------------------------------------------------------------

  /**
   * `anchor` is the ledger reading of the last poll that left the key safe, `base` that of the last poll that
   * concluded for it either way, and `misses` counts the failures since the anchor. A poll concludes for the key when
   * it finds it above the threshold, when its extension lands or fails, or when a reading or fetch it needs fails.
   */
  datatype Track = Track(anchor: int, base: int, misses: nat) {
    function Covered(reading: int): Track {
      Track(reading, reading, 0)
    }
    function Missed(reading: int): Track {
      Track(anchor, reading, misses + 1)
    }
  }

  predicate Carried(key: string, batch: seq<BatchEntry>) {
    exists i :: 0 <= i < |batch| && batch[i].keyXdr == key
  }

  /** How a step changes the history of `key` in watch `w`. */
  function Follow(sys: System, w: nat, key: string, track: Track, s: State, action: Action): Track
    requires w < |sys.watches|
  {
    match (action, s.phase)
    case (ReadFails, _) => track.Missed(s.ledger)
    case (FetchFails, Between(c, n)) => if n == w then track.Missed(c) else track
    case (Fetched, Between(c, n)) =>
      if n != w then track
      else if key !in s.liveUntil then track.Missed(c)
      else if ShouldExtend(TtlRemaining(s.liveUntil[key], c), sys.watches[w].threshold) then track
      else track.Covered(c)
    case (Lands, Extending(c, n, pending)) =>
      if n == w && pending != [] && Carried(key, pending[0]) then track.Covered(c) else track
    case (Fails, Extending(c, n, pending)) =>
      if n == w && pending != [] && Carried(key, pending[0]) then track.Missed(c) else track
    case _ => track
  }

  function TrackAt(sys: System, w: nat, key: string, start: Track, run: Run, i: nat): Track
    requires w < |sys.watches| && i < |run.states| && |run.states| == |run.actions| + 1
  {
    if i == 0 then start
    else Follow(sys, w, key, TrackAt(sys, w, key, start, run, i - 1), run.states[i - 1], run.actions[i - 1])
  }

  ghost predicate Watches(sys: System, w: nat, key: string) {
    && w < |sys.watches|
    && sys.watches[w].threshold < sys.watches[w].extendTo
    && exists i :: 0 <= i < |sys.watches[w].keys| && sys.watches[w].keys[i].keyXdr == key
  }

  /**
   * The schedule of a key: at no time are more than `gap` ledgers closed since the reading of the last poll that
   * concluded for it, and at most `k` polls in a row fail it. Other keys and watches may take longer.
   */
  ghost predicate OnSchedule(s: State, track: Track, gap: nat, k: nat) {
    s.ledger <= track.base + gap && track.misses <= k
  }

  ghost predicate KeepsSchedule(sys: System, w: nat, key: string, start: Track, run: Run, gap: nat, k: nat)
    requires w < |sys.watches| && |run.states| == |run.actions| + 1
  {
    KeepsScheduleFrom(sys, w, key, start, run, gap, k, 0)
  }

  ghost predicate KeepsScheduleFrom(sys: System, w: nat, key: string, start: Track, run: Run, gap: nat, k: nat, from: nat)
    requires w < |sys.watches| && |run.states| == |run.actions| + 1
  {
    forall i :: from <= i < |run.states| ==> OnSchedule(run.states[i], TrackAt(sys, w, key, start, run, i), gap, k)
  }

  /** How a run begins: with an entry that the last poll found safe, or right after an extension that covers it. */
  datatype Origin = SafelyRead | JustLanded

  /** Between polls, with an entry that a poll with reading `start.anchor` left safe. */
  ghost predicate StartsSafe(sys: System, w: nat, key: string, start: Track, s: State)
    requires w < |sys.watches|
  {
    && s.phase == Idle
    && key in s.liveUntil && s.liveUntil[key] > start.anchor + sys.watches[w].threshold
    && start == Track(start.anchor, start.anchor, 0) && start.anchor <= s.ledger
  }

  /** In the poll with reading `start.anchor`, an extension of watch `w` has just lifted the entry to its target. */
  ghost predicate StartsLanded(sys: System, w: nat, key: string, start: Track, s: State)
    requires w < |sys.watches|
  {
    && s.phase.Extending? && s.phase.watch == w && s.phase.current == start.anchor
    && key in s.liveUntil && s.liveUntil[key] >= s.ledger + sys.watches[w].extendTo
    && start == Track(start.anchor, start.anchor, 0) && start.anchor <= s.ledger
  }

  ghost predicate Starts(origin: Origin, sys: System, w: nat, key: string, start: Track, s: State)
    requires w < |sys.watches|
  {
    match origin
    case SafelyRead => StartsSafe(sys, w, key, start, s)
    case JustLanded => StartsLanded(sys, w, key, start, s)
  }

  // ---------------------------------------------------------------------------
  // The invariant
  // ---------------------------------------------------------------------------

  /** The poll in progress has concluded for the key, or is still going to. */
  ghost predicate WillConclude(w: nat, key: string, phase: Phase, track: Track, ledger: u32) {
    match phase
    case Idle => true
    case Between(c, n) => track.base <= c <= ledger && (w < n ==> track.base == c)
    case Extending(c, n, pending) =>
      && track.base <= c <= ledger
      && (w < n ==> track.base == c)
      && (w == n ==> track.base == c || Carried(key, Flatten(pending)))
  }

  ghost predicate Inv(sys: System, w: nat, key: string, s: State, track: Track, gap: nat)
    requires w < |sys.watches|
  {
    && key in s.liveUntil
    && track.anchor + sys.watches[w].threshold < s.liveUntil[key]
    && track.base <= track.anchor + track.misses * gap
    && track.base <= s.ledger
    && WillConclude(w, key, s.phase, track, s.ledger)
  }

  /** On schedule, the safe reading leaves this much of the threshold unspent. */
  lemma SlackLeft(sys: System, w: nat, key: string, s: State, track: Track, gap: nat, k: nat)
    requires w < |sys.watches| && Inv(sys, w, key, s, track, gap) && OnSchedule(s, track, gap, k)
    ensures s.liveUntil[key] - s.ledger >= 1 + sys.watches[w].threshold - (k + 1) * gap
    ensures s.ledger <= track.anchor + (track.misses + 1) * gap
  {
    assert (track.misses + 1) * gap == track.misses * gap + gap;
    assert (k - track.misses) * gap >= 0;
    assert (k + 1) * gap == (track.misses + 1) * gap + (k - track.misses) * gap;
  }

  function SnapshotOf(sys: System, liveUntil: map<string, u32>, key: WatchKey): EntrySnapshot
    requires key.keyXdr in liveUntil
  {
    EntrySnapshot(key.name, key.keyXdr, liveUntil[key.keyXdr], sys.size(key.keyXdr))
  }

  lemma {:induction false} SnapshotsContain(sys: System, liveUntil: map<string, u32>, keys: seq<WatchKey>, i: nat)
      returns (j: nat)
    requires i < |keys| && keys[i].keyXdr in liveUntil
    ensures j < |Snapshots(sys, liveUntil, keys)|
    ensures Snapshots(sys, liveUntil, keys)[j] == SnapshotOf(sys, liveUntil, keys[i])
  {
    var n := |keys| - 1;
    if i == n {
      j := |Snapshots(sys, liveUntil, keys[..n])|;
    } else {
      j := SnapshotsContain(sys, liveUntil, keys[..n], i);
    }
  }

  lemma {:induction false} DueContain(snapshots: seq<EntrySnapshot>, current: u32, threshold: u32, j: nat)
    requires j < |snapshots| && IsDue(snapshots[j], current, threshold)
    ensures Carried(snapshots[j].keyXdr, Due(snapshots, current, threshold))
  {
    var n := |snapshots| - 1;
    var before := Due(snapshots[..n], current, threshold);
    if j == n {
      assert Due(snapshots, current, threshold)[|before|].keyXdr == snapshots[j].keyXdr;
    } else {
      DueContain(snapshots[..n], current, threshold, j);
      var i :| 0 <= i < |before| && before[i].keyXdr == snapshots[j].keyXdr;
      assert Due(snapshots, current, threshold)[i] == before[i];
    }
  }

  /** A due watched key is in one of the planned batches. */
  lemma DueKeyIsPlanned(sys: System, w: nat, key: string, s: State, current: u32)
    requires Watches(sys, w, key) && key in s.liveUntil
    requires ShouldExtend(TtlRemaining(s.liveUntil[key], current), sys.watches[w].threshold)
    ensures Carried(key, Flatten(Plan(DueIn(sys, s, current, sys.watches[w]), sys.cap)))
  {
    var watch := sys.watches[w];
    var i :| 0 <= i < |watch.keys| && watch.keys[i].keyXdr == key;
    var j := SnapshotsContain(sys, s.liveUntil, watch.keys, i);
    DueContain(Snapshots(sys, s.liveUntil, watch.keys), current, watch.threshold, j);
    PlanIsFaithful(DueIn(sys, s, current, watch), sys.cap);
  }

  lemma CarriedByHeadOrTail(key: string, pending: seq<seq<BatchEntry>>)
    requires pending != [] && Carried(key, Flatten(pending))
    ensures Carried(key, pending[0]) || Carried(key, Flatten(pending[1..]))
  {
    var i :| 0 <= i < |Flatten(pending)| && Flatten(pending)[i].keyXdr == key;
    if i >= |pending[0]| {
      assert Flatten(pending[1..])[i - |pending[0]|].keyXdr == key;
    }
  }

  /** One step on schedule keeps the key safe. */
  lemma StepKeepsInv(sys: System, w: nat, key: string, s: State, action: Action, s': State, track: Track,
                     gap: nat, k: nat)
    requires Watches(sys, w, key)
    requires Inv(sys, w, key, s, track, gap) && OnSchedule(s, track, gap, k)
    requires (k + 1) * gap <= sys.watches[w].threshold
    requires Step(sys, s, action, s')
    ensures Inv(sys, w, key, s', Follow(sys, w, key, track, s, action), gap)
  {
    hide Plan, Due, Snapshots;
    SlackLeft(sys, w, key, s, track, gap, k);
    match action {
      case Fetched =>
        if s.phase.next == w && ShouldExtend(TtlRemaining(s.liveUntil[key], s.phase.current), sys.watches[w].threshold) {
          DueKeyIsPlanned(sys, w, key, s, s.phase.current);
        }
      case Lands =>
        if Carried(key, Flatten(s.phase.pending)) {
          CarriedByHeadOrTail(key, s.phase.pending);
        }
      case Fails =>
        if Carried(key, Flatten(s.phase.pending)) {
          CarriedByHeadOrTail(key, s.phase.pending);
        }
      case _ =>
    }
  }

  lemma StartKeepsInv(origin: Origin, sys: System, w: nat, key: string, start: Track, s: State, gap: nat)
    requires Watches(sys, w, key) && Starts(origin, sys, w, key, start, s)
    ensures Inv(sys, w, key, s, start, gap)
  {
    assert start.misses * gap == 0;
  }

  /** From one safe state on, every state on schedule is safe. */
  lemma {:induction false} RunKeepsInv(sys: System, w: nat, key: string, start: Track, run: Run, gap: nat, k: nat,
                                       from: nat, i: nat)
    requires IsRun(sys, run) && Watches(sys, w, key) && w < |sys.watches|
    requires from <= i < |run.states| && Inv(sys, w, key, run.states[from], TrackAt(sys, w, key, start, run, from), gap)
    requires KeepsScheduleFrom(sys, w, key, start, run, gap, k, from) && (k + 1) * gap <= sys.watches[w].threshold
    ensures Inv(sys, w, key, run.states[i], TrackAt(sys, w, key, start, run, i), gap)
    decreases i
  {
    hide Step, Follow, Inv, Watches;
    if from < i {
      RunKeepsInv(sys, w, key, start, run, gap, k, from, i - 1);
      StepKeepsInv(sys, w, key, run.states[i - 1], run.actions[i - 1], run.states[i],
                   TrackAt(sys, w, key, start, run, i - 1), gap, k);
    }
  }

  // ---------------------------------------------------------------------------
  // Keep-alive
  // ---------------------------------------------------------------------------

  /** The entry is live, with at least so many ledgers to spare. */
  predicate LiveWithSlack(s: State, key: string, slack: int) {
    Live(s, key) && s.liveUntil[key] - s.ledger >= slack
  }

  /** What `k + 1` gaps leave of the threshold. */
  function Slack(threshold: u32, gap: nat, k: nat): int {
    1 + threshold - (k + 1) * gap
  }

  /**
   * Over every run: if each poll concludes for the key within `gap` ledgers of the previous one's reading, and at most
   * `k` in a row fail it, then `(k + 1) * gap <= threshold` keeps the key live at every ledger, with the rest of the
   * threshold to spare.
   */
  lemma KeptAlive(origin: Origin, sys: System, w: nat, key: string, start: Track, run: Run, gap: nat, k: nat)
    requires IsRun(sys, run) && Watches(sys, w, key) && Starts(origin, sys, w, key, start, run.states[0])
    requires KeepsSchedule(sys, w, key, start, run, gap, k) && (k + 1) * gap <= sys.watches[w].threshold
    ensures forall i :: 0 <= i < |run.states| ==> LiveWithSlack(run.states[i], key, Slack(sys.watches[w].threshold, gap, k))
  {
    StartKeepsInv(origin, sys, w, key, start, run.states[0], gap);
    KeptAliveFrom(sys, w, key, start, run, gap, k, 0);
  }

  lemma KeptAliveFrom(sys: System, w: nat, key: string, start: Track, run: Run, gap: nat, k: nat, from: nat)
    requires IsRun(sys, run) && Watches(sys, w, key) && w < |sys.watches|
    requires from < |run.states| && Inv(sys, w, key, run.states[from], TrackAt(sys, w, key, start, run, from), gap)
    requires KeepsScheduleFrom(sys, w, key, start, run, gap, k, from) && (k + 1) * gap <= sys.watches[w].threshold
    ensures forall i :: from <= i < |run.states| ==>
      LiveWithSlack(run.states[i], key, Slack(sys.watches[w].threshold, gap, k))
  {
    forall i | from <= i < |run.states|
      ensures LiveWithSlack(run.states[i], key, Slack(sys.watches[w].threshold, gap, k))
    {
      RunKeepsInv(sys, w, key, start, run, gap, k, from, i);
      SlackLeft(sys, w, key, run.states[i], TrackAt(sys, w, key, start, run, i), gap, k);
    }
  }

  /** Step `i` of the run lands an extension of watch `w` that covers the key, which is live when it does. */
  predicate CoveredAt(w: nat, key: string, run: Run, i: nat) {
    && i < |run.states| && i < |run.actions| && run.actions[i] == Lands
    && run.states[i].phase.Extending? && run.states[i].phase.watch == w && run.states[i].phase.pending != []
    && Carried(key, run.states[i].phase.pending[0]) && Live(run.states[i], key)
  }

  /**
   * Whatever the entry had left when the keeper started, due or not: once an extension covers it while it is live, it
   * stays live for as long as the schedule is kept, however irregular polls were before.
   */
  lemma KeptAliveOnceLanded(sys: System, w: nat, key: string, start: Track, run: Run, gap: nat, k: nat, landing: nat)
    requires IsRun(sys, run) && Watches(sys, w, key) && w < |sys.watches|
    requires run.states[0].phase == Idle
    requires CoveredAt(w, key, run, landing)
    requires KeepsScheduleFrom(sys, w, key, start, run, gap, k, landing + 1)
    requires (k + 1) * gap <= sys.watches[w].threshold
    ensures StartsLanded(sys, w, key, TrackAt(sys, w, key, start, run, landing + 1), run.states[landing + 1])
    ensures forall i :: landing < i < |run.states| ==>
      LiveWithSlack(run.states[i], key, Slack(sys.watches[w].threshold, gap, k))
  {
    hide IsRun, Inv, Watches, CoveredAt, StartsLanded, TrackAt, KeepsScheduleFrom, LiveWithSlack;
    LandsAsStart(sys, w, key, start, run, landing);
    StartKeepsInv(JustLanded, sys, w, key, TrackAt(sys, w, key, start, run, landing + 1), run.states[landing + 1], gap);
    KeptAliveFrom(sys, w, key, start, run, gap, k, landing + 1);
  }

  /** After a covering landing the run is where another could start. */
  lemma LandsAsStart(sys: System, w: nat, key: string, start: Track, run: Run, landing: nat)
    requires IsRun(sys, run) && w < |sys.watches| && run.states[0].phase == Idle && CoveredAt(w, key, run, landing)
    ensures landing + 1 < |run.states| == |run.actions| + 1
    ensures StartsLanded(sys, w, key, TrackAt(sys, w, key, start, run, landing + 1), run.states[landing + 1])
  {
    ReadingsAreOfThePast(sys, run, landing);
    hide Step, Follow, StartsLanded, Carried;
    LandingStarts(sys, w, key, TrackAt(sys, w, key, start, run, landing), run.states[landing], run.states[landing + 1]);
  }

  lemma LandingStarts(sys: System, w: nat, key: string, track: Track, s: State, s': State)
    requires w < |sys.watches| && ReadBefore(s) && Step(sys, s, Lands, s')
    requires s.phase.Extending? && s.phase.watch == w && s.phase.pending != []
    requires Carried(key, s.phase.pending[0]) && Live(s, key)
    ensures StartsLanded(sys, w, key, Follow(sys, w, key, track, s, Lands), s')
  {
  }

  /** No poll works from a reading of the future. */
  predicate ReadBefore(s: State) {
    s.phase.Idle? || s.phase.current <= s.ledger
  }

  lemma StepKeepsReadBefore(sys: System, s: State, action: Action, s': State)
    requires ReadBefore(s) && Step(sys, s, action, s')
    ensures ReadBefore(s')
  {
    hide Plan, DueIn, OnlyRaised, Extended;
  }

  lemma {:induction false} ReadingsAreOfThePast(sys: System, run: Run, i: nat)
    requires IsRun(sys, run) && i < |run.states| && run.states[0].phase == Idle
    ensures ReadBefore(run.states[i])
  {
    hide Step, ReadBefore;
    if i == 0 {
      IdleIsReadBefore(run.states[0]);
    } else {
      ReadingsAreOfThePast(sys, run, i - 1);
      StepKeepsReadBefore(sys, run.states[i - 1], run.actions[i - 1], run.states[i]);
    }
  }

  lemma IdleIsReadBefore(s: State)
    requires s.phase == Idle
    ensures ReadBefore(s)
  {
  }

  // ---------------------------------------------------------------------------
  // The bound is exact
  // ---------------------------------------------------------------------------

  /** A run of the system in which the keeper keeps its schedule for the key from the start. */
  ghost predicate ScheduledRun(origin: Origin, sys: System, w: nat, key: string, start: Track, run: Run, gap: nat, k: nat) {
    && IsRun(sys, run) && Watches(sys, w, key)
    && Starts(origin, sys, w, key, start, run.states[0])
    && KeepsSchedule(sys, w, key, start, run, gap, k)
  }

  ghost predicate AlwaysLive(run: Run, key: string) {
    forall i :: 0 <= i < |run.states| ==> Live(run.states[i], key)
  }

  ghost predicate HasPolicy(sys: System, w: nat, threshold: u32, extendTo: u32) {
    w < |sys.watches| && sys.watches[w].threshold == threshold && sys.watches[w].extendTo == extendTo
  }

  /** The policy protects every key it watches, in every system, on every scheduled run from such a start. */
  ghost predicate Guarantees(origin: Origin, threshold: u32, extendTo: u32, gap: nat, k: nat) {
    forall sys: System, w: nat, key, start, run |
      ScheduledRun(origin, sys, w, key, start, run, gap, k) && HasPolicy(sys, w, threshold, extendTo) ::
        AlwaysLive(run, key)
  }

  ghost function Append(run: Run, action: Action, s: State): Run {
    Run(run.states + [s], run.actions + [action])
  }

  ghost function Final(run: Run): State
    requires run.states != []
  {
    run.states[|run.states| - 1]
  }

  ghost function FinalTrack(sys: System, w: nat, key: string, start: Track, run: Run): Track
    requires w < |sys.watches| && |run.states| == |run.actions| + 1
  {
    TrackAt(sys, w, key, start, run, |run.actions|)
  }

  lemma {:induction false} TrackOfPrefix(sys: System, w: nat, key: string, start: Track, run: Run, action: Action,
                                         s: State, i: nat)
    requires w < |sys.watches| && |run.states| == |run.actions| + 1 && i < |run.states|
    ensures TrackAt(sys, w, key, start, Append(run, action, s), i) == TrackAt(sys, w, key, start, run, i)
  {
    hide Follow;
    if i > 0 {
      TrackOfPrefix(sys, w, key, start, run, action, s, i - 1);
    }
  }

  lemma AppendIsRun(sys: System, run: Run, action: Action, s: State)
    requires IsRun(sys, run) && Step(sys, Final(run), action, s)
    ensures IsRun(sys, Append(run, action, s))
  {
    hide Step;
    var longer := Append(run, action, s);
    forall i | 0 <= i < |longer.actions|
      ensures Step(sys, longer.states[i], longer.actions[i], longer.states[i + 1])
    {
      if i < |run.actions| {
        assert longer.states[i] == run.states[i] && longer.states[i + 1] == run.states[i + 1];
      }
    }
  }

  /** A scheduled run grows by any step that stays on schedule. */
  lemma GrowsAsRun(sys: System, run: Run, action: Action, s: State)
    requires IsRun(sys, run) && Step(sys, Final(run), action, s)
    ensures IsRun(sys, Append(run, action, s)) && Append(run, action, s).states[0] == run.states[0]
    ensures |Append(run, action, s).states| == |Append(run, action, s).actions| + 1
  {
    AppendIsRun(sys, run, action, s);
  }

  lemma Grow(origin: Origin, sys: System, w: nat, key: string, start: Track, run: Run, gap: nat, k: nat,
             action: Action, s: State)
    requires ScheduledRun(origin, sys, w, key, start, run, gap, k)
    requires w < |sys.watches| && |run.states| == |run.actions| + 1
    requires Step(sys, Final(run), action, s)
    requires OnSchedule(s, Follow(sys, w, key, FinalTrack(sys, w, key, start, run), Final(run), action), gap, k)
    ensures ScheduledRun(origin, sys, w, key, start, Append(run, action, s), gap, k)
    ensures FinalTrack(sys, w, key, start, Append(run, action, s))
         == Follow(sys, w, key, FinalTrack(sys, w, key, start, run), Final(run), action)
  {
    hide Step, Follow, Starts, OnSchedule, IsRun, Watches;
    GrowsAsRun(sys, run, action, s);
    var run' := Append(run, action, s);
    var n := |run.actions|;
    TrackOfPrefix(sys, w, key, start, run, action, s, n);
    forall i | 0 <= i < |run'.states|
      ensures OnSchedule(run'.states[i], TrackAt(sys, w, key, start, run', i), gap, k)
    {
      if i <= n {
        TrackOfPrefix(sys, w, key, start, run, action, s, i);
        assert OnSchedule(run.states[i], TrackAt(sys, w, key, start, run, i), gap, k);
      }
    }
  }

  // The losing run: one entry, left with one ledger more than the threshold when it is last found safe, and then every
  // poll fails.

  const ENTRY: string := "entry"

  function OneEntry(threshold: u32, extendTo: u32): System {
    System([WatchConfig("contract", threshold, extendTo, [WatchKey("data:0", ENTRY)])], 0, (_: string) => 0)
  }

  function Resting(ledger: u32, until: u32): State {
    State(ledger, map[ENTRY := until], Idle)
  }

  lemma EntryIsWatched(threshold: u32, extendTo: u32)
    requires threshold < extendTo
    ensures Watches(OneEntry(threshold, extendTo), 0, ENTRY)
  {
    assert OneEntry(threshold, extendTo).watches[0].keys[0].keyXdr == ENTRY;
  }

  /** A scheduled run of the one entry has come to state `s`, with this history. */
  ghost predicate RestsAt(origin: Origin, sys: System, start: Track, run: Run, gap: nat, k: nat, s: State, track: Track) {
    && |sys.watches| == 1 && ScheduledRun(origin, sys, 0, ENTRY, start, run, gap, k)
    && |run.states| == |run.actions| + 1
    && Final(run) == s && FinalTrack(sys, 0, ENTRY, start, run) == track
  }

  lemma Takes(origin: Origin, sys: System, start: Track, run: Run, gap: nat, k: nat, s: State, track: Track,
              action: Action, s': State)
    requires RestsAt(origin, sys, start, run, gap, k, s, track) && Step(sys, s, action, s')
    requires OnSchedule(s', Follow(sys, 0, ENTRY, track, s, action), gap, k)
    ensures RestsAt(origin, sys, start, Append(run, action, s'), gap, k, s', Follow(sys, 0, ENTRY, track, s, action))
  {
    hide Step, Follow, ScheduledRun, FinalTrack, OnSchedule;
    Grow(origin, sys, 0, ENTRY, start, run, gap, k, action, s');
  }

  /** With more than the threshold left nothing is due. */
  lemma NothingDue(threshold: u32, extendTo: u32, s: State, ledger: u32, until: u32)
    requires until > ledger + threshold && s.liveUntil == map[ENTRY := until]
    ensures
      var sys := OneEntry(threshold, extendTo);
      Plan(DueIn(sys, s, ledger, sys.watches[0]), sys.cap) == []
  {
    var sys := OneEntry(threshold, extendTo);
    var liveUntil, keys := s.liveUntil, sys.watches[0].keys;
    assert keys[..0] == [] && Snapshots(sys, liveUntil, keys[..0]) == [];
    var snapshots := Snapshots(sys, liveUntil, keys);
    assert snapshots == [SnapshotOf(sys, liveUntil, keys[0])];
    assert snapshots[..0] == [] && Due(snapshots[..0], ledger, threshold) == [];
  }

  /** A poll that finds the entry above the threshold leaves everything as it was, and counts as safe. */
  lemma QuietPoll(origin: Origin, threshold: u32, extendTo: u32, start: Track, run: Run, gap: nat, k: nat, ledger: u32,
                  until: u32, track: Track) returns (run': Run)
    requires RestsAt(origin, OneEntry(threshold, extendTo), start, run, gap, k, Resting(ledger, until), track)
    requires until > ledger + threshold && ledger <= track.base + gap && track.misses <= k
    ensures RestsAt(origin, OneEntry(threshold, extendTo), start, run', gap, k, Resting(ledger, until),
                    Track(ledger, ledger, 0))
  {
    hide RestsAt, Plan, DueIn;
    var sys := OneEntry(threshold, extendTo);
    var idle := Resting(ledger, until);
    var read := idle.(phase := Between(ledger, 0));
    var fetched := idle.(phase := Extending(ledger, 0, []));
    var done := idle.(phase := Between(ledger, 1));
    var covered := track.Covered(ledger);
    NothingDue(threshold, extendTo, read, ledger, until);
    Takes(origin, sys, start, run, gap, k, idle, track, ReadLedger, read);
    run' := Append(run, ReadLedger, read);
    Takes(origin, sys, start, run', gap, k, read, track, Fetched, fetched);
    run' := Append(run', Fetched, fetched);
    Takes(origin, sys, start, run', gap, k, fetched, covered, EndWatch, done);
    run' := Append(run', EndWatch, done);
    Takes(origin, sys, start, run', gap, k, done, covered, EndPoll, idle);
    run' := Append(run', EndPoll, idle);
  }

  /** Polled at every ledger, an extended entry wears down until one ledger above the threshold is left. */
  lemma {:induction false} WearDown(origin: Origin, threshold: u32, extendTo: u32, start: Track, run: Run, gap: nat,
                                    k: nat, ledger: u32, until: u32) returns (run': Run, safe: u32)
    requires RestsAt(origin, OneEntry(threshold, extendTo), start, run, gap, k, Resting(ledger, until),
                     Track(ledger, ledger, 0))
    requires until > ledger + threshold && gap > 0
    ensures safe + threshold + 1 == until
    ensures RestsAt(origin, OneEntry(threshold, extendTo), start, run', gap, k, Resting(safe, until),
                    Track(safe, safe, 0))
    decreases until - ledger
  {
    hide RestsAt, Plan, DueIn;
    if until == ledger + threshold + 1 {
      run', safe := run, ledger;
    } else {
      var sys, track, next := OneEntry(threshold, extendTo), Track(ledger, ledger, 0), Resting(ledger + 1, until);
      Takes(origin, sys, start, run, gap, k, Resting(ledger, until), track, LedgerCloses, next);
      run' := Append(run, LedgerCloses, next);
      run' := QuietPoll(origin, threshold, extendTo, start, run', gap, k, ledger + 1, until, track);
      run', safe := WearDown(origin, threshold, extendTo, start, run', gap, k, ledger + 1, until);
    }
  }

  /** A run that has only begun. */
  lemma BeginsAt(origin: Origin, sys: System, start: Track, s: State, gap: nat, k: nat)
    requires |sys.watches| == 1 && Watches(sys, 0, ENTRY) && Starts(origin, sys, 0, ENTRY, start, s)
    requires OnSchedule(s, start, gap, k)
    ensures RestsAt(origin, sys, start, Run([s], []), gap, k, s, start)
  {
    hide Watches, Starts, OnSchedule;
  }

  /** The rest of the poll in which an extension landed, and polls at every ledger after it. */
  lemma LandedWearsDown(threshold: u32, extendTo: u32, gap: nat, k: nat) returns (run: Run, safe: u32)
    requires threshold < extendTo && gap > 0
    ensures safe + threshold + 1 == extendTo
    ensures RestsAt(JustLanded, OneEntry(threshold, extendTo), Track(0, 0, 0), run, gap, k, Resting(safe, extendTo),
                    Track(safe, safe, 0))
  {
    var sys, start := OneEntry(threshold, extendTo), Track(0, 0, 0);
    var landed := Resting(0, extendTo).(phase := Extending(0, 0, []));
    var done := Resting(0, extendTo).(phase := Between(0, 1));
    EntryIsWatched(threshold, extendTo);
    hide Watches, RestsAt;
    BeginsAt(JustLanded, sys, start, landed, gap, k);
    run := Run([landed], []);
    Takes(JustLanded, sys, start, run, gap, k, landed, start, EndWatch, done);
    run := Append(run, EndWatch, done);
    Takes(JustLanded, sys, start, run, gap, k, done, start, EndPoll, Resting(0, extendTo));
    run := Append(run, EndPoll, Resting(0, extendTo));
    run, safe := WearDown(JustLanded, threshold, extendTo, start, run, gap, k, 0, extendTo);
  }

  /** An entry one ledger above the threshold, in a run from either kind of start. */
  lemma JustNotDue(origin: Origin, threshold: u32, extendTo: u32, gap: nat, k: nat)
      returns (start: Track, run: Run, safe: u32)
    requires threshold < extendTo && gap > 0
    ensures safe + threshold + 1 <= U32_MAX
    ensures RestsAt(origin, OneEntry(threshold, extendTo), start, run, gap, k, Resting(safe, safe + threshold + 1),
                    Track(safe, safe, 0))
  {
    hide Watches, RestsAt;
    start := Track(0, 0, 0);
    match origin {
      case SafelyRead =>
        EntryIsWatched(threshold, extendTo);
        BeginsAt(SafelyRead, OneEntry(threshold, extendTo), start, Resting(0, threshold + 1), gap, k);
        run, safe := Run([Resting(0, threshold + 1)], []), 0;
      case JustLanded => run, safe := LandedWearsDown(threshold, extendTo, gap, k);
    }
  }

  /** How long `m` gaps are. */
  function Gaps(m: nat, gap: nat): nat {
    m * gap
  }

  lemma OneMoreGap(m: nat, gap: nat)
    ensures Gaps(m + 1, gap) == Gaps(m, gap) + gap
  {
  }

  /** The history of the entry after `m` failed polls, `gap` ledgers apart, since the reading `safe`. */
  function Failing(safe: int, gap: nat, m: nat): Track {
    Track(safe, safe + Gaps(m, gap), m)
  }

  /** The next poll fails as late as the schedule allows. */
  lemma FailsOnce(origin: Origin, sys: System, start: Track, run: Run, gap: nat, k: nat, s: State, safe: u32, m: nat)
    requires RestsAt(origin, sys, start, run, gap, k, s, Failing(safe, gap, m)) && s.phase == Idle
    requires m < k && s.ledger == safe + Gaps(m + 1, gap)
    ensures RestsAt(origin, sys, start, Append(run, ReadFails, s), gap, k, s, Failing(safe, gap, m + 1))
  {
    assert |sys.watches| == 1;
    hide RestsAt, Gaps;
    Takes(origin, sys, start, run, gap, k, s, Failing(safe, gap, m), ReadFails, s);
  }

  /** A ledger closes on schedule. */
  lemma ClosesOnce(origin: Origin, sys: System, start: Track, run: Run, gap: nat, k: nat, s: State, safe: u32, m: nat)
    requires RestsAt(origin, sys, start, run, gap, k, s, Failing(safe, gap, m)) && s.phase == Idle
    requires m <= k && s.ledger < safe + Gaps(m + 1, gap) && s.ledger < U32_MAX
    ensures
      var s' := s.(ledger := s.ledger + 1);
      RestsAt(origin, sys, start, Append(run, LedgerCloses, s'), gap, k, s', Failing(safe, gap, m))
  {
    assert |sys.watches| == 1;
    hide RestsAt, Gaps;
    OneMoreGap(m, gap);
    Takes(origin, sys, start, run, gap, k, s, Failing(safe, gap, m), LedgerCloses, s.(ledger := s.ledger + 1));
  }

  /** Ledgers close while every poll fails, until the threshold is spent; `rest` is what the schedule still allows. */
  lemma {:induction false} Drift(origin: Origin, threshold: u32, extendTo: u32, start: Track, run: Run, gap: nat, k: nat,
                                 safe: u32, ledger: u32, m: nat, rest: nat)
      returns (run': Run, track: Track)
    requires safe + threshold + 1 <= U32_MAX && gap > 0
    requires RestsAt(origin, OneEntry(threshold, extendTo), start, run, gap, k, Resting(ledger, safe + threshold + 1),
                     Failing(safe, gap, m))
    requires Gaps(k + 1, gap) > threshold && m <= k
    requires ledger <= safe + threshold + 1 && ledger + rest == safe + Gaps(m + 1, gap)
    ensures RestsAt(origin, OneEntry(threshold, extendTo), start, run', gap, k,
                    Resting(safe + threshold + 1, safe + threshold + 1), track)
    decreases safe + threshold + 1 - ledger, k - m
  {
    hide Gaps, RestsAt, Failing;
    var sys, until := OneEntry(threshold, extendTo), safe + threshold + 1;
    var s := Resting(ledger, until);
    if ledger == until {
      run', track := run, Failing(safe, gap, m);
    } else if rest == 0 {
      FailsOnce(origin, sys, start, run, gap, k, s, safe, m);
      OneMoreGap(m + 1, gap);
      run', track := Drift(origin, threshold, extendTo, start, Append(run, ReadFails, s), gap, k, safe, ledger, m + 1, gap);
    } else {
      ClosesOnce(origin, sys, start, run, gap, k, s, safe, m);
      run', track := Drift(origin, threshold, extendTo, start, Append(run, LedgerCloses, Resting(ledger + 1, until)), gap, k,
                    safe, ledger + 1, m, rest - 1);
    }
  }

  /**
   * From either kind of start, after a poll that found the entry safe or after a landed extension, the guarantee holds
   * exactly when the threshold outlasts `k + 1` gaps.
   */
  lemma GuaranteeExactly(origin: Origin, threshold: u32, extendTo: u32, gap: nat, k: nat)
    requires threshold < extendTo
    ensures Guarantees(origin, threshold, extendTo, gap, k) <==> (k + 1) * gap <= threshold
  {
    if (k + 1) * gap <= threshold {
      forall sys: System, w: nat, key, start, run |
        ScheduledRun(origin, sys, w, key, start, run, gap, k) && HasPolicy(sys, w, threshold, extendTo)
        ensures AlwaysLive(run, key)
      {
        KeptAlive(origin, sys, w, key, start, run, gap, k);
      }
    } else {
      assert gap > 0 by {
        assert gap == 0 ==> (k + 1) * gap == 0;
      }
      var start, run, safe := JustNotDue(origin, threshold, extendTo, gap, k);
      assert Failing(safe, gap, 0) == Track(safe, safe, 0);
      var lost, track := Drift(origin, threshold, extendTo, start, run, gap, k, safe, safe, 0, gap);
      assert !AlwaysLive(lost, ENTRY);
      assert HasPolicy(OneEntry(threshold, extendTo), 0, threshold, extendTo);
    }
  }

  /** With every extension succeeding, the tolerable gap is the threshold itself, and not one ledger more. */
  lemma GapOfOneThreshold(origin: Origin, threshold: u32, extendTo: u32)
    requires threshold < extendTo
    ensures Guarantees(origin, threshold, extendTo, threshold, 0)
    ensures !Guarantees(origin, threshold, extendTo, threshold + 1, 0)
  {
    hide Guarantees;
    GuaranteeExactly(origin, threshold, extendTo, threshold, 0);
    GuaranteeExactly(origin, threshold, extendTo, threshold + 1, 0);
  }

  /** The shipped defaults survive 1439 failed polls in a row, and not 1440, whichever way the entry was left safe. */
  lemma DefaultTolerance(origin: Origin)
    ensures
      var gap := KeeperConfig.LedgersPerPoll(KeeperConfig.DEFAULT_POLL_INTERVAL_SECS);
      && gap == 120 && KeeperConfig.DEFAULT_THRESHOLD == 10 * 17_280 && KeeperConfig.DEFAULT_EXTEND_TO == 30 * 17_280
      && Guarantees(origin, KeeperConfig.DEFAULT_THRESHOLD, KeeperConfig.DEFAULT_EXTEND_TO, gap, 1439)
      && !Guarantees(origin, KeeperConfig.DEFAULT_THRESHOLD, KeeperConfig.DEFAULT_EXTEND_TO, gap, 1440)
  {
    hide Guarantees;
    GuaranteeExactly(origin, 172_800, 518_400, 120, 1439);
    GuaranteeExactly(origin, 172_800, 518_400, 120, 1440);
  }

  /**
   * Loading a configuration without the opt-out buys keep-alive for each of its contracts when polls conclude within one
   * unclamped poll interval of the previous reading: for entries a poll found safe, and for all others from the first
   * extension that finds them live.
   */
  lemma ValidConfigKeepsAlive(config: KeeperConfig.Config, c: KeeperConfig.ContractConfig, origin: Origin)
    requires KeeperConfig.Validate(config).Ok? && !config.allowShortThreshold && c in config.contracts
    ensures Guarantees(origin, c.threshold, c.extendTo, config.pollIntervalSecs / KeeperConfig.SECONDS_PER_LEDGER, 0)
  {
    hide Guarantees;
    KeeperConfig.AcceptedExactly(config);
    assert KeeperConfig.CoversInterval(c, config.pollIntervalSecs) && KeeperConfig.PolicyOrdered(c);
    GuaranteeExactly(origin, c.threshold, c.extendTo, config.pollIntervalSecs / KeeperConfig.SECONDS_PER_LEDGER, 0);
  }

  lemma RefusedConfigLosesEntries(config: KeeperConfig.Config, origin: Origin)
    requires KeeperConfig.Validate(config).Err? && KeeperConfig.Validate(config).error.ShortThreshold?
    ensures
      var c := KeeperConfig.Validate(config).error.contract;
      !Guarantees(origin, c.threshold, c.extendTo, config.pollIntervalSecs / KeeperConfig.SECONDS_PER_LEDGER, 0)
  {
    hide Guarantees;
    var c := KeeperConfig.Validate(config).error.contract;
    KeeperConfig.ShortThresholdIsReal(config);
    KeeperConfig.AcceptedExactly(config.(allowShortThreshold := true));
    assert KeeperConfig.PolicyOrdered(c);
    GuaranteeExactly(origin, c.threshold, c.extendTo, config.pollIntervalSecs / KeeperConfig.SECONDS_PER_LEDGER, 0);
  }
}
