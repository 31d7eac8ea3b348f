/** Keep-alive for the keeper itself: the schedule and the guarantee, in terms of what it did and when. */
module KeeperGuarantee {
  import opened Machine
  import opened Wrappers
  import opened Risk
  import opened Keeper
  import opened KeepAlive
  import opened PollRefinement

  // ---------------------------------------------------------------------------
  // The history of a watched key, read off the keeper's deeds
  // ---------------------------------------------------------------------------

  predicate AsksFor(deed: Deed, w: nat, key: string) {
    deed.watch == w && deed.request.Some? && key in deed.request.value.keys
  }

  function FollowDeed(sys: System, w: nat, key: string, track: Track, deed: Deed): Track
    requires w < |sys.watches|
  {
    match deed.action
    case ReadFails => track.Missed(deed.at.ledger)
    case FetchFails => if deed.watch == w then track.Missed(deed.reading) else track
    case Fetched =>
      if deed.watch != w then track
      else if key !in deed.at.liveUntil then track.Missed(deed.reading)
      else if ShouldExtend(TtlRemaining(deed.at.liveUntil[key], deed.reading), sys.watches[w].threshold) then track
      else track.Covered(deed.reading)
    case Lands => if AsksFor(deed, w, key) then track.Covered(deed.reading) else track
    case Fails => if AsksFor(deed, w, key) then track.Missed(deed.reading) else track
    case _ => track
  }

  /** The history after the first `j` deeds. */
  function TrackAfter(sys: System, w: nat, key: string, start: Track, deeds: seq<Deed>, j: nat): Track
    requires w < |sys.watches| && j <= |deeds|
  {
    if j == 0 then start else FollowDeed(sys, w, key, TrackAfter(sys, w, key, start, deeds, j - 1), deeds[j - 1])
  }

  /** The ledger by which deed `j` is done; after the last one, the end of the history. */
  function LedgerOf(deeds: seq<Deed>, end: Moment, j: nat): u32
    requires j <= |deeds|
  {
    if j < |deeds| then deeds[j].at.ledger else end.ledger
  }

  /**
   * The keeper's schedule for a key from deed `from` on: whatever it does next happens at most `gap` ledgers after the
   * reading of the last poll that concluded for the key, and at most `k` polls in a row fail it.
   */
  ghost predicate DoneOnSchedule(sys: System, w: nat, key: string, start: Track, deeds: seq<Deed>, end: Moment,
                                 gap: nat, k: nat, from: nat)
    requires w < |sys.watches|
  {
    forall j :: from <= j <= |deeds| ==>
      && LedgerOf(deeds, end, j) <= TrackAfter(sys, w, key, start, deeds, j).base + gap
      && TrackAfter(sys, w, key, start, deeds, j).misses <= k
  }

  /** The entry is live at this moment, with at least so many ledgers to spare. */
  predicate LiveAt(m: Moment, key: string, slack: int) {
    key in m.liveUntil && m.ledger < m.liveUntil[key] && slack <= m.liveUntil[key] - m.ledger
  }

  // ---------------------------------------------------------------------------
  // Deeds and the run that performs them
  // ---------------------------------------------------------------------------

  /** A deed changes the history of a key as its step does. */
  lemma DeedFollows(sys: System, w: nat, key: string, track: Track, s: State, action: Action, s': State, deed: Deed)
    requires w < |sys.watches| && Step(sys, s, action, s') && IsDeed(sys, s, action, deed)
    requires deed.request.Some? <==> action == Lands || action == Fails
    ensures Follow(sys, w, key, track, s, action) == FollowDeed(sys, w, key, track, deed)
  {
    if action == Lands || action == Fails {
      assert Carried(key, s.phase.pending[0]) <==> key in KeysOf(s.phase.pending[0]) by {
        CarriedIsAskedFor(key, s.phase.pending[0]);
      }
    }
  }

  lemma CarriedIsAskedFor(key: string, batch: seq<BatchEntry>)
    ensures Carried(key, batch) <==> key in KeysOf(batch)
  {
    if i :| 0 <= i < |batch| && batch[i].keyXdr == key {
      assert KeysOf(batch)[i] == key;
    }
    if key in KeysOf(batch) {
      var i :| 0 <= i < |KeysOf(batch)| && KeysOf(batch)[i] == key;
      assert batch[i].keyXdr == key;
    }
  }

  /** Requests are what deeds of landing and failing have, and no others. */
  ghost predicate EndsRequests(deeds: seq<Deed>) {
    forall j :: 0 <= j < |deeds| ==> (deeds[j].request.Some? <==> deeds[j].action == Lands || deeds[j].action == Fails)
  }

  /** How many of the first `i` steps of the run are the keeper's. */
  function Taken(run: Run, i: nat): nat
    requires i <= |run.actions| && |run.states| == |run.actions| + 1
  {
    |OwnSteps(run, i)|
  }

  /** The keeper's steps in the run are the deeds. */
  ghost predicate Does(sys: System, run: Run, deeds: seq<Deed>) {
    |run.states| == |run.actions| + 1 && AreDeeds(sys, OwnSteps(run, |run.actions|), deeds)
  }

  lemma TakenMore(run: Run, i: nat)
    requires i < |run.actions| && |run.states| == |run.actions| + 1
    ensures Taken(run, i + 1) == Taken(run, i) + if ByOthers(run.actions[i]) then 0 else 1
  {
  }

  lemma {:induction false} TakenGrows(run: Run, i: nat, n: nat)
    requires i <= n <= |run.actions| && |run.states| == |run.actions| + 1
    ensures Taken(run, i) <= Taken(run, n)
    decreases n
  {
    hide Taken;
    if i < n {
      TakenGrows(run, i, n - 1);
      TakenMore(run, n - 1);
    }
  }

  /** A step of the keeper's own is in its place among all of them. */
  lemma {:induction false} StepInPlace(run: Run, i: nat, n: nat)
    requires i < n <= |run.actions| && |run.states| == |run.actions| + 1 && !ByOthers(run.actions[i])
    ensures Taken(run, i) < |OwnSteps(run, n)|
    ensures OwnSteps(run, n)[Taken(run, i)] == (run.states[i], run.actions[i])
    decreases n
  {
    if i < n - 1 {
      StepInPlace(run, i, n - 1);
    }
  }

  /** A step of the keeper's own is the deed that is next, and no more steps are taken than there are deeds. */
  lemma StepIsNextDeed(sys: System, run: Run, deeds: seq<Deed>, i: nat)
    requires Does(sys, run, deeds) && i <= |run.actions|
    ensures Taken(run, i) <= |deeds| && Taken(run, |run.actions|) == |deeds|
    ensures i < |run.actions| && !ByOthers(run.actions[i]) ==>
      Taken(run, i) < |deeds| && IsDeed(sys, run.states[i], run.actions[i], deeds[Taken(run, i)])
  {
    TakenGrows(run, i, |run.actions|);
    if i < |run.actions| && !ByOthers(run.actions[i]) {
      StepInPlace(run, i, |run.actions|);
      hide IsDeed, OwnSteps;
      var steps := OwnSteps(run, |run.actions|);
      assert IsDeed(sys, steps[Taken(run, i)].0, steps[Taken(run, i)].1, deeds[Taken(run, i)]);
    }
  }

  /** The step of the run that is deed `j`. */
  lemma {:induction false} StepOf(run: Run, n: nat, j: nat) returns (i: nat)
    requires n <= |run.actions| && |run.states| == |run.actions| + 1 && j < Taken(run, n)
    ensures i < n && !ByOthers(run.actions[i]) && Taken(run, i) == j
  {
    hide Taken;
    if n == 0 {
      NoneTaken(run);
    } else {
      TakenMore(run, n - 1);
      if j < Taken(run, n - 1) {
        i := StepOf(run, n - 1, j);
      } else {
        i := n - 1;
      }
    }
  }

  lemma NoneTaken(run: Run)
    requires |run.states| == |run.actions| + 1
    ensures Taken(run, 0) == 0
  {
  }

  /** The history of the key in the run is the one read off the deeds. */
  lemma {:induction false} SameTrack(sys: System, w: nat, key: string, start: Track, run: Run, deeds: seq<Deed>, i: nat)
    requires IsRun(sys, run) && Does(sys, run, deeds) && EndsRequests(deeds)
    requires w < |sys.watches| && i <= |run.actions|
    ensures Taken(run, i) <= |deeds|
    ensures TrackAt(sys, w, key, start, run, i) == TrackAfter(sys, w, key, start, deeds, Taken(run, i))
  {
    hide Step, FollowDeed, Follow, IsDeed, Taken, Does;
    if i == 0 {
      NoneTaken(run);
    } else {
      var s, action, j := run.states[i - 1], run.actions[i - 1], Taken(run, i - 1);
      SameTrack(sys, w, key, start, run, deeds, i - 1);
      assert Step(sys, s, action, run.states[i]);
      TakenMore(run, i - 1);
      StepIsNextDeed(sys, run, deeds, i - 1);
      if ByOthers(action) {
        OthersLeaveTrack(sys, w, key, TrackAt(sys, w, key, start, run, i - 1), s, action);
      } else {
        DeedIsStep(sys, s, action, deeds[j]);
        DeedFollows(sys, w, key, TrackAt(sys, w, key, start, run, i - 1), s, action, run.states[i], deeds[j]);
      }
    }
  }

  lemma DeedIsStep(sys: System, s: State, action: Action, deed: Deed)
    requires IsDeed(sys, s, action, deed)
    ensures deed.action == action && deed.at == Moment(s.ledger, s.liveUntil)
  {
  }

  lemma OthersLeaveTrack(sys: System, w: nat, key: string, track: Track, s: State, action: Action)
    requires w < |sys.watches| && ByOthers(action)
    ensures Follow(sys, w, key, track, s, action) == track
  {
  }

  lemma LedgersRise(sys: System, s: State, action: Action, s': State)
    requires Step(sys, s, action, s')
    ensures s.ledger <= s'.ledger
  {
  }

  /** No state is later than the next thing the keeper does. */
  lemma {:induction false} NextDeedIsAhead(sys: System, run: Run, deeds: seq<Deed>, end: Moment, i: nat)
    requires IsRun(sys, run) && Does(sys, run, deeds)
    requires i <= |run.actions| && Final(run).ledger == end.ledger
    ensures Taken(run, i) <= |deeds| && run.states[i].ledger <= LedgerOf(deeds, end, Taken(run, i))
    decreases |run.actions| - i
  {
    hide Step, IsDeed, Taken, Does;
    StepIsNextDeed(sys, run, deeds, i);
    if i < |run.actions| {
      LedgersRise(sys, run.states[i], run.actions[i], run.states[i + 1]);
      if ByOthers(run.actions[i]) {
        TakenMore(run, i);
        NextDeedIsAhead(sys, run, deeds, end, i + 1);
      } else {
        DeedIsStep(sys, run.states[i], run.actions[i], deeds[Taken(run, i)]);
      }
    }
  }

  /** Deeds on schedule are done in a run on schedule, from the state where the first of them is next. */
  lemma ScheduleCarriesOver(sys: System, w: nat, key: string, start: Track, run: Run, deeds: seq<Deed>, end: Moment,
                            gap: nat, k: nat, from: nat, first: nat)
    requires IsRun(sys, run) && Does(sys, run, deeds) && EndsRequests(deeds)
    requires w < |sys.watches| && Final(run).ledger == end.ledger
    requires first <= |run.actions| && Taken(run, first) == from
    requires DoneOnSchedule(sys, w, key, start, deeds, end, gap, k, from)
    ensures KeepsScheduleFrom(sys, w, key, start, run, gap, k, first)
  {
    hide Does, TrackAt, TrackAfter, Taken, Step;
    forall i | first <= i < |run.states|
      ensures OnSchedule(run.states[i], TrackAt(sys, w, key, start, run, i), gap, k)
    {
      TakenGrows(run, first, i);
      SameTrack(sys, w, key, start, run, deeds, i);
      NextDeedIsAhead(sys, run, deeds, end, i);
      assert LedgerOf(deeds, end, Taken(run, i)) <= TrackAfter(sys, w, key, start, deeds, Taken(run, i)).base + gap;
    }
  }

  // ---------------------------------------------------------------------------
  // Which deeds end requests
  // ---------------------------------------------------------------------------

  lemma EndsBoth(a: seq<Deed>, b: seq<Deed>)
    requires EndsRequests(a) && EndsRequests(b)
    ensures EndsRequests(a + b)
  {
  }

  lemma WatchEndsRequests(poll: WatchPoll, fetched: bool, times: WatchTimes, current: u32, n: nat)
    requires |times.landings| == |poll.issued|
    ensures EndsRequests(WatchDeeds(poll, fetched, times, current, n))
  {
  }

  lemma {:induction false} WatchesEndRequests(record: PollRecord, n: nat)
    requires WellTimed(record) && n <= |record.polls|
    ensures EndsRequests(WatchesDeeds(record, n))
  {
    if n > 0 {
      hide EndsRequests;
      WatchesEndRequests(record, n - 1);
      WatchEndsRequests(record.polls[n - 1], record.reports[n - 1].Ok?, record.times[n - 1], record.read.ledger, n - 1);
      EndsBoth(WatchesDeeds(record, n - 1),
               WatchDeeds(record.polls[n - 1], record.reports[n - 1].Ok?, record.times[n - 1], record.read.ledger, n - 1));
    } else {
      assert WatchesDeeds(record, 0) == [];
    }
  }

  lemma {:induction false} HistoryEndsRequests(sys: System, terms: Terms, history: seq<PollRecord>, n: nat)
    requires n <= |history| && forall i :: 0 <= i < |history| ==> TruePoll(sys, terms, history[i])
    ensures EndsRequests(HistoryDeeds(sys, terms, history, n))
  {
    hide TruePoll, EndsRequests, PollDeeds;
    if n == 0 {
      EndsNone();
    } else {
      HistoryEndsRequests(sys, terms, history, n - 1);
      PollEndsRequests(sys, terms, history[n - 1]);
      EndsBoth(HistoryDeeds(sys, terms, history, n - 1), PollDeeds(sys, terms, history[n - 1]));
    }
  }

  lemma EndsNone()
    ensures EndsRequests([])
  {
  }

  lemma PollEndsRequests(sys: System, terms: Terms, record: PollRecord)
    requires TruePoll(sys, terms, record)
    ensures EndsRequests(PollDeeds(sys, terms, record))
  {
    hide WatchesDeeds, EndsRequests;
    var n, current := |record.polls|, record.read.ledger;
    OneDeed(Deed(ReadFails, record.read, current, 0, None));
    if record.reading.Ok? {
      WatchesEndRequests(record, n);
      var first, last := Deed(ReadLedger, record.read, current, 0, None), Deed(EndPoll, MomentAt(record, n), current, n, None);
      OneDeed(first);
      OneDeed(last);
      EndsBoth([first], WatchesDeeds(record, n));
      EndsBoth([first] + WatchesDeeds(record, n), [last]);
    }
  }

  lemma OneDeed(deed: Deed)
    requires deed.request.None? && deed.action != Lands && deed.action != Fails
    ensures EndsRequests([deed])
  {
  }

  // ---------------------------------------------------------------------------
  // The guarantee
  // ---------------------------------------------------------------------------

  /** The deeds of a whole history, and the moment it ends at. */
  ghost function Deeds(sys: System, terms: Terms, history: seq<PollRecord>): seq<Deed>
    requires forall i :: 0 <= i < |history| ==> TruePoll(sys, terms, history[i])
  {
    HistoryDeeds(sys, terms, history, |history|)
  }

  function EndOf(m: Moment, history: seq<PollRecord>): Moment {
    MomentAfterPolls(m, history, |history|)
  }

  /**
   * The keeper's polls, in any number, over a network that answers truly but as unreliably as it likes: while they stay
   * on schedule and `(k + 1) * gap <= threshold`, an entry the last poll found safe is live whenever the keeper does
   * anything, and at the end.
   */
  lemma HistoryKeepsAlive(sys: System, terms: Terms, m: Moment, history: seq<PollRecord>, w: nat, key: string,
                          start: Track, gap: nat, k: nat)
    requires TrueHistory(sys, terms, m, history) && Watches(sys, w, key)
    requires StartsSafe(sys, w, key, start, At(m, Idle))
    requires DoneOnSchedule(sys, w, key, start, Deeds(sys, terms, history), EndOf(m, history), gap, k, 0)
    requires (k + 1) * gap <= sys.watches[w].threshold
    ensures
      var slack := Slack(sys.watches[w].threshold, gap, k);
      && (forall j :: 0 <= j < |Deeds(sys, terms, history)| ==> LiveAt(Deeds(sys, terms, history)[j].at, key, slack))
      && LiveAt(EndOf(m, history), key, slack)
  {
    var deeds, end := Deeds(sys, terms, history), EndOf(m, history);
    hide Does, DoneOnSchedule, TrackAt, EndsRequests, Deeds, TrueHistory, Taken, IsRun, KeepsScheduleFrom, StartsSafe,
      LiveWithSlack, Slack;
    var run := RunOf(sys, terms, m, history);
    NoneTaken(run);
    ScheduleCarriesOver(sys, w, key, start, run, deeds, end, gap, k, 0, 0);
    KeptAlive(SafelyRead, sys, w, key, start, run, gap, k);
    var slack := Slack(sys.watches[w].threshold, gap, k);
    LiveWhereDone(sys, run, deeds, key, slack, 0, 0);
    LiveAtEnd(run.states[|run.actions|], end, key, slack);
  }

  /**
   * The same for any entry, due or not when the keeper started: once a request that asks for it lands while it is live,
   * it is live whenever the keeper does anything after that, while the schedule is kept.
   */
  lemma HistoryKeepsAliveOnceLanded(sys: System, terms: Terms, m: Moment, history: seq<PollRecord>, w: nat, key: string,
                                    start: Track, gap: nat, k: nat, landing: nat)
    requires TrueHistory(sys, terms, m, history) && Watches(sys, w, key) && w < |sys.watches|
    requires LandsFor(Deeds(sys, terms, history), w, key, landing)
    requires DoneOnSchedule(sys, w, key, start, Deeds(sys, terms, history), EndOf(m, history), gap, k, landing + 1)
    requires (k + 1) * gap <= sys.watches[w].threshold
    ensures
      var slack := Slack(sys.watches[w].threshold, gap, k);
      && (forall j :: landing < j < |Deeds(sys, terms, history)| ==> LiveAt(Deeds(sys, terms, history)[j].at, key, slack))
      && LiveAt(EndOf(m, history), key, slack)
  {
    var deeds := Deeds(sys, terms, history);
    hide Deeds, TrueHistory, DoneOnSchedule, LandsFor, IsRun, Does, EndsRequests, Watches;
    var run := RunOf(sys, terms, m, history);
    RunStaysAlive(sys, run, deeds, EndOf(m, history), w, key, start, gap, k, landing);
  }

  lemma RunStaysAlive(sys: System, run: Run, deeds: seq<Deed>, end: Moment, w: nat, key: string, start: Track, gap: nat,
                      k: nat, landing: nat)
    requires IsRun(sys, run) && Does(sys, run, deeds) && EndsRequests(deeds) && |run.states| == |run.actions| + 1
    requires run.states[0].phase == Idle && Final(run) == At(end, Idle)
    requires Watches(sys, w, key) && w < |sys.watches| && LandsFor(deeds, w, key, landing)
    requires DoneOnSchedule(sys, w, key, start, deeds, end, gap, k, landing + 1)
    requires (k + 1) * gap <= sys.watches[w].threshold
    ensures
      var slack := Slack(sys.watches[w].threshold, gap, k);
      (forall j :: landing < j < |deeds| ==> LiveAt(deeds[j].at, key, slack)) && LiveAt(end, key, slack)
  {
    hide Does, DoneOnSchedule, EndsRequests, Taken, IsRun, KeepsScheduleFrom, Watches, LandsFor, CoveredAt, StartsLanded;
    hide LiveWithSlack, Slack, TrackAt;
    var i := LandingStep(sys, run, deeds, w, key, landing);
    TakenMore(run, i);
    ScheduleCarriesOver(sys, w, key, start, run, deeds, end, gap, k, landing + 1, i + 1);
    KeptAliveOnceLanded(sys, w, key, start, run, gap, k, i);
    var slack := Slack(sys.watches[w].threshold, gap, k);
    LiveWhereDone(sys, run, deeds, key, slack, i + 1, landing + 1);
    LiveAtEnd(run.states[|run.actions|], end, key, slack);
  }

  lemma LiveAtEnd(s: State, end: Moment, key: string, slack: int)
    requires LiveWithSlack(s, key, slack) && s == At(end, Idle)
    ensures LiveAt(end, key, slack)
  {
  }

  /** Deed `landing` is a successful request for the key, which is live when it is decided. */
  predicate LandsFor(deeds: seq<Deed>, w: nat, key: string, landing: nat) {
    && landing < |deeds| && deeds[landing].action == Lands && AsksFor(deeds[landing], w, key)
    && LiveAt(deeds[landing].at, key, 1)
  }

  lemma LandingStep(sys: System, run: Run, deeds: seq<Deed>, w: nat, key: string, landing: nat) returns (i: nat)
    requires Does(sys, run, deeds) && LandsFor(deeds, w, key, landing)
    ensures i < |run.actions| && !ByOthers(run.actions[i]) && Taken(run, i) == landing
    ensures CoveredAt(w, key, run, i)
  {
    hide Does, Taken;
    assert |run.states| == |run.actions| + 1 by { DoesStates(sys, run, deeds); }
    StepIsNextDeed(sys, run, deeds, 0);
    i := StepOf(run, |run.actions|, landing);
    StepIsNextDeed(sys, run, deeds, i);
    CarriedIsAskedFor(key, run.states[i].phase.pending[0]);
  }

  lemma DoesStates(sys: System, run: Run, deeds: seq<Deed>)
    requires Does(sys, run, deeds)
    ensures |run.states| == |run.actions| + 1
  {
  }

  /** The run of a history. */
  lemma RunOf(sys: System, terms: Terms, m: Moment, history: seq<PollRecord>) returns (run: Run)
    requires TrueHistory(sys, terms, m, history)
    ensures IsRun(sys, run) && |run.states| == |run.actions| + 1
    ensures run.states[0] == At(m, Idle) && Final(run) == At(EndOf(m, history), Idle)
    ensures Does(sys, run, Deeds(sys, terms, history)) && EndsRequests(Deeds(sys, terms, history))
  {
    HistoryEndsRequests(sys, terms, history, |history|);
    hide AreDeeds, EndsRequests, HistoryDeeds;
    run := HistoryIsARun(sys, terms, m, history, |history|);
  }

  /** States live from `first` on make the deeds from there on happen at live moments. */
  lemma LiveWhereDone(sys: System, run: Run, deeds: seq<Deed>, key: string, slack: int, first: nat, from: nat)
    requires Does(sys, run, deeds) && |run.states| == |run.actions| + 1
    requires first <= |run.actions| && Taken(run, first) == from
    requires forall i :: first <= i < |run.states| ==> LiveWithSlack(run.states[i], key, slack)
    ensures forall j :: from <= j < |deeds| ==> LiveAt(deeds[j].at, key, slack)
  {
    hide Does, Taken, IsDeed;
    StepIsNextDeed(sys, run, deeds, first);
    forall j | from <= j < |deeds|
      ensures LiveAt(deeds[j].at, key, slack)
    {
      var i := StepOf(run, |run.actions|, j);
      NotBefore(run, first, i);
      StepIsNextDeed(sys, run, deeds, i);
      DeedIsStep(sys, run.states[i], run.actions[i], deeds[j]);
      assert LiveWithSlack(run.states[i], key, slack);
    }
  }

  lemma NotBefore(run: Run, first: nat, i: nat)
    requires |run.states| == |run.actions| + 1 && i < |run.actions| && !ByOthers(run.actions[i])
    requires first <= |run.actions| && Taken(run, first) <= Taken(run, i)
    ensures first <= i
  {
    hide Taken;
    if i < first {
      TakenGrows(run, i + 1, first);
      TakenMore(run, i);
    }
  }
}
