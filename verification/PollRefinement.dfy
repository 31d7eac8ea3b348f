/**
 * What the keeper does is a run of the step system. A poll takes time: between any two answers of the network ledgers
 * close and other parties extend entries. Given when each answer was true, the poll's steps fall into place.
 */
module PollRefinement {
  import opened Machine
  import opened Wrappers
  import opened Risk
  import opened KeeperRpc
  import opened Keeper
  import opened KeepAlive

  // ---------------------------------------------------------------------------
  // What was true when
  // ---------------------------------------------------------------------------

  /** The network at one moment. */
  datatype Moment = Moment(ledger: u32, liveUntil: map<string, u32>)

  /** The network just before and just after an extension request was decided. */
  datatype Landing = Landing(before: Moment, after: Moment)

  /** When the entries of a watch were read, and when each of its requests was decided. */
  datatype WatchTimes = WatchTimes(fetch: Moment, landings: seq<Landing>)

  /** Ledgers only close, and lifetimes only rise. */
  ghost predicate Follows(a: Moment, b: Moment) {
    a.ledger <= b.ledger && OnlyRaised(a.liveUntil, b.liveUntil)
  }

  /** A successful request gave every key it asked for, if live, at least the lifetime it asked for. */
  ghost predicate Honoured(request: ExtendRequest, landing: Landing) {
    && landing.before.ledger == landing.after.ledger
    && OnlyRaised(landing.before.liveUntil, landing.after.liveUntil)
    && (request.outcome.Ok? ==>
          forall key :: key in request.keys && key in landing.before.liveUntil
                        && landing.before.ledger < landing.before.liveUntil[key] ==>
            key in landing.after.liveUntil && landing.before.ledger + request.extendTo <= landing.after.liveUntil[key])
  }

  function MomentBefore(from: Moment, landings: seq<Landing>, j: nat): Moment
    requires j <= |landings|
  {
    if j == 0 then from else landings[j - 1].after
  }

  function AfterWatch(times: WatchTimes): Moment {
    MomentBefore(times.fetch, times.landings, |times.landings|)
  }

  /** The fetch reported the entries as they were, and each request was decided in its turn, as it was answered. */
  ghost predicate TrueWatch(sys: System, watch: WatchConfig, poll: WatchPoll, fetched: bool, times: WatchTimes) {
    && |times.landings| == |poll.issued|
    && (fetched ==> poll.snapshots == Snapshots(sys, times.fetch.liveUntil, watch.keys))
    && (forall j :: 0 <= j < |poll.issued| ==> Honoured(poll.issued[j], times.landings[j]))
    && (forall j :: 0 <= j < |poll.issued| ==>
          Follows(MomentBefore(times.fetch, times.landings, j), times.landings[j].before))
  }

  /** A poll of the keeper: what it read, reported and asked for, and when. */
  datatype PollRecord = PollRecord(
    reading: Result<u32, string>, reports: seq<Result<PollReport, PollError>>, polls: seq<WatchPoll>,
    read: Moment, times: seq<WatchTimes>)

  /** The moment before the poll turns to watch `n`. */
  function MomentAt(record: PollRecord, n: nat): Moment
    requires n <= |record.times|
  {
    if n == 0 then record.read else AfterWatch(record.times[n - 1])
  }

  /** Every watch that was polled has its times. */
  predicate WellTimed(record: PollRecord) {
    && |record.times| == |record.polls| <= |record.reports|
    && forall n :: 0 <= n < |record.polls| ==> |record.times[n].landings| == |record.polls[n].issued|
  }

  /** The poll ended as specified, from answers that were true at moments that follow one another. */
  ghost predicate TruePoll(sys: System, terms: Terms, record: PollRecord) {
    && PolledAll(sys.watches, sys.cap, terms, record.reading, record.reports, record.polls)
    && WellTimed(record)
    && (record.reading.Ok? ==> record.reading.value == record.read.ledger)
    && (record.reading.Ok? ==> forall n :: 0 <= n < |record.polls| ==>
          && TrueWatch(sys, sys.watches[n], record.polls[n], record.reports[n].Ok?, record.times[n])
          && Follows(MomentAt(record, n), record.times[n].fetch))
  }

  // ---------------------------------------------------------------------------
  // What the keeper did, in order
  // ---------------------------------------------------------------------------

  /**
   * A step of the keeper, the moment it took place, the reading and the watch it was working on, and the request it was
   * the end of.
   */
  datatype Deed = Deed(action: Action, at: Moment, reading: u32, watch: nat, request: Option<ExtendRequest>)

  function Ending(request: ExtendRequest): Action {
    if request.outcome.Ok? then Lands else Fails
  }

  /** The ends of the first `j` requests. */
  function RequestDeeds(issued: seq<ExtendRequest>, landings: seq<Landing>, current: u32, n: nat, j: nat): seq<Deed>
    requires j <= |issued| == |landings|
  {
    seq(j, i requires 0 <= i < j => Deed(Ending(issued[i]), landings[i].before, current, n, Some(issued[i])))
  }

  function WatchDeeds(poll: WatchPoll, fetched: bool, times: WatchTimes, current: u32, n: nat): seq<Deed>
    requires |times.landings| == |poll.issued|
  {
    if !fetched then [Deed(FetchFails, times.fetch, current, n, None)]
    else
      [Deed(Fetched, times.fetch, current, n, None)] +
      RequestDeeds(poll.issued, times.landings, current, n, |poll.issued|) +
      [Deed(EndWatch, AfterWatch(times), current, n, None)]
  }

  ghost function WatchesDeeds(record: PollRecord, n: nat): seq<Deed>
    requires WellTimed(record) && n <= |record.polls|
  {
    if n == 0 then []
    else
      WatchesDeeds(record, n - 1) +
      WatchDeeds(record.polls[n - 1], record.reports[n - 1].Ok?, record.times[n - 1], record.read.ledger, n - 1)
  }

  /** Everything the keeper did in a poll. */
  ghost function PollDeeds(sys: System, terms: Terms, record: PollRecord): seq<Deed>
    requires TruePoll(sys, terms, record)
  {
    var current := record.read.ledger;
    if record.reading.Err? then [Deed(ReadFails, record.read, current, 0, None)]
    else
      [Deed(ReadLedger, record.read, current, 0, None)] + WatchesDeeds(record, |record.polls|) +
      [Deed(EndPoll, MomentAt(record, |record.polls|), current, |record.polls|, None)]
  }

  function AfterRecord(record: PollRecord): Moment {
    MomentAt(record, |record.times|)
  }

  // ---------------------------------------------------------------------------
  // Runs that perform the deeds
  // ---------------------------------------------------------------------------

  function At(m: Moment, phase: Phase): State {
    State(m.ledger, m.liveUntil, phase)
  }

  predicate ByOthers(action: Action) {
    action == LedgerCloses || action == OthersRaise
  }

  /** The keeper's own steps among the first `n` of a run, each with the state it was taken in. */
  function OwnSteps(run: Run, n: nat): seq<(State, Action)>
    requires n <= |run.actions| && |run.states| == |run.actions| + 1
  {
    if n == 0 then []
    else OwnSteps(run, n - 1) + if ByOthers(run.actions[n - 1]) then [] else [(run.states[n - 1], run.actions[n - 1])]
  }

  /**
   * The step is the deed: at its moment, from its reading, on its watch, and, where it ends a request, for the batch
   * whose keys were asked for, at the target that was asked for.
   */
  predicate IsDeed(sys: System, s: State, action: Action, deed: Deed) {
    && action == deed.action && s.ledger == deed.at.ledger && s.liveUntil == deed.at.liveUntil
    && (s.phase.Between? ==> s.phase.current == deed.reading && s.phase.next == deed.watch)
    && (s.phase.Extending? ==> s.phase.current == deed.reading && s.phase.watch == deed.watch)
    && (deed.request.Some? ==>
          && s.phase.Extending? && s.phase.watch < |sys.watches| && s.phase.pending != []
          && KeysOf(s.phase.pending[0]) == deed.request.value.keys
          && sys.watches[s.phase.watch].extendTo == deed.request.value.extendTo)
  }

  ghost predicate AreDeeds(sys: System, steps: seq<(State, Action)>, deeds: seq<Deed>) {
    |steps| == |deeds| && forall i :: 0 <= i < |steps| ==> IsDeed(sys, steps[i].0, steps[i].1, deeds[i])
  }

  /** A run from `start` to `s` in which the keeper did exactly these deeds, in this order. */
  ghost predicate Performs(sys: System, start: State, run: Run, deeds: seq<Deed>, s: State) {
    && IsRun(sys, run) && run.states[0] == start && Final(run) == s
    && AreDeeds(sys, OwnSteps(run, |run.actions|), deeds)
  }

  lemma {:induction false} OwnStepsOfPrefix(run: Run, action: Action, s: State, n: nat)
    requires n <= |run.actions| && |run.states| == |run.actions| + 1
    ensures OwnSteps(Append(run, action, s), n) == OwnSteps(run, n)
  {
    if n > 0 {
      OwnStepsOfPrefix(run, action, s, n - 1);
    }
  }

  /** Others act: the deeds stay. */
  lemma OthersAct(sys: System, start: State, run: Run, deeds: seq<Deed>, s: State, action: Action, s': State)
    requires Performs(sys, start, run, deeds, s) && Step(sys, s, action, s') && ByOthers(action)
    ensures Performs(sys, start, Append(run, action, s'), deeds, s')
  {
    hide Step, AreDeeds;
    AppendIsRun(sys, run, action, s');
    OwnStepsOfPrefix(run, action, s', |run.actions|);
    var run', n := Append(run, action, s'), |run.actions|;
    assert OwnSteps(run', n + 1) == OwnSteps(run, n) + [];
    assert OwnSteps(run', n + 1) == OwnSteps(run, n);
  }

  /** The keeper acts: one deed more. */
  lemma KeeperActs(sys: System, start: State, run: Run, deeds: seq<Deed>, s: State, action: Action, s': State, deed: Deed)
    requires Performs(sys, start, run, deeds, s) && Step(sys, s, action, s')
    requires !ByOthers(action) && IsDeed(sys, s, action, deed)
    ensures Performs(sys, start, Append(run, action, s'), deeds + [deed], s')
  {
    hide Step, IsDeed;
    AppendIsRun(sys, run, action, s');
    OwnStepsOfPrefix(run, action, s', |run.actions|);
  }

  lemma {:induction false} LedgersClose(sys: System, start: State, run: Run, deeds: seq<Deed>, s: State, ledger: u32)
      returns (run': Run)
    requires Performs(sys, start, run, deeds, s) && s.ledger <= ledger
    ensures Performs(sys, start, run', deeds, s.(ledger := ledger))
    decreases ledger - s.ledger
  {
    hide Performs;
    if s.ledger == ledger {
      run' := run;
    } else {
      var s' := s.(ledger := s.ledger + 1);
      OthersAct(sys, start, run, deeds, s, LedgerCloses, s');
      run' := LedgersClose(sys, start, Append(run, LedgerCloses, s'), deeds, s', ledger);
    }
  }

  /** Time passes up to a moment that follows. */
  lemma Passes(sys: System, start: State, run: Run, deeds: seq<Deed>, m: Moment, phase: Phase, m': Moment)
      returns (run': Run)
    requires Performs(sys, start, run, deeds, At(m, phase)) && Follows(m, m')
    ensures Performs(sys, start, run', deeds, At(m', phase))
  {
    hide Performs, OnlyRaised;
    run' := LedgersClose(sys, start, run, deeds, At(m, phase), m'.ledger);
    var s := At(Moment(m'.ledger, m.liveUntil), phase);
    OthersAct(sys, start, run', deeds, s, OthersRaise, At(m', phase));
    run' := Append(run', OthersRaise, At(m', phase));
  }

  // ---------------------------------------------------------------------------
  // Requests, watches, polls
  // ---------------------------------------------------------------------------

  /** One request: it lands, or fails, for the batch it was issued for. */
  lemma RequestIsAStep(sys: System, start: State, run: Run, deeds: seq<Deed>, m: Moment, current: u32, n: nat,
                       pending: seq<seq<BatchEntry>>, request: ExtendRequest, landing: Landing) returns (run': Run)
    requires Performs(sys, start, run, deeds, At(m, Extending(current, n, pending)))
    requires n < |sys.watches| && pending != []
    requires request.keys == KeysOf(pending[0]) && request.extendTo == sys.watches[n].extendTo
    requires Follows(m, landing.before) && Honoured(request, landing)
    ensures Performs(sys, start, run', deeds + [Deed(Ending(request), landing.before, current, n, Some(request))],
                     At(landing.after, Extending(current, n, pending[1..])))
  {
    hide Performs;
    run' := Passes(sys, start, run, deeds, m, Extending(current, n, pending), landing.before);
    var s, rest := At(landing.before, Extending(current, n, pending)), Extending(current, n, pending[1..]);
    var deed := Deed(Ending(request), landing.before, current, n, Some(request));
    if request.outcome.Ok? {
      forall i | 0 <= i < |pending[0]|
        ensures pending[0][i].keyXdr in request.keys
      {
        assert KeysOf(pending[0])[i] == pending[0][i].keyXdr;
      }
      KeeperActs(sys, start, run', deeds, s, Lands, At(landing.after, rest), deed);
      run' := Append(run', Lands, At(landing.after, rest));
    } else {
      KeeperActs(sys, start, run', deeds, s, Fails, At(landing.before, rest), deed);
      run' := Append(run', Fails, At(landing.before, rest));
      run' := Passes(sys, start, run', deeds + [deed], landing.before, rest, landing.after);
    }
  }

  /** The `j`-th request is for the `j`-th batch, and was decided in its turn. */
  lemma RequestInTurn(sys: System, watch: WatchConfig, poll: WatchPoll, times: WatchTimes, batches: seq<seq<BatchEntry>>,
                      terms: Terms, fetched: bool, j: nat)
    requires TrueWatch(sys, watch, poll, fetched, times) && Carries(poll.issued, batches, watch, terms) && j < |batches|
    ensures |times.landings| == |poll.issued| == |batches|
    ensures poll.issued[j].keys == KeysOf(batches[j]) && poll.issued[j].extendTo == watch.extendTo
    ensures Follows(MomentBefore(times.fetch, times.landings, j), times.landings[j].before)
    ensures Honoured(poll.issued[j], times.landings[j])
  {
    hide Follows, Honoured, KeysOf, Answered;
  }

  lemma OneRequestMore(deeds: seq<Deed>, issued: seq<ExtendRequest>, landings: seq<Landing>, current: u32, n: nat, j: nat)
    requires j < |issued| == |landings|
    ensures deeds + RequestDeeds(issued, landings, current, n, j)
         + [Deed(Ending(issued[j]), landings[j].before, current, n, Some(issued[j]))]
         == deeds + RequestDeeds(issued, landings, current, n, j + 1)
  {
  }

  /** The first `j` requests of a watch. */
  lemma {:induction false} RequestsAreARun(sys: System, start: State, run: Run, deeds: seq<Deed>, current: u32, n: nat,
                                           poll: WatchPoll, times: WatchTimes, batches: seq<seq<BatchEntry>>,
                                           terms: Terms, fetched: bool, j: nat) returns (run': Run)
    requires Performs(sys, start, run, deeds, At(times.fetch, Extending(current, n, batches)))
    requires n < |sys.watches| && TrueWatch(sys, sys.watches[n], poll, fetched, times)
    requires Carries(poll.issued, batches, sys.watches[n], terms) && j <= |batches|
    requires |times.landings| == |poll.issued| == |batches|
    ensures Performs(sys, start, run', deeds + RequestDeeds(poll.issued, times.landings, current, n, j),
                     At(MomentBefore(times.fetch, times.landings, j), Extending(current, n, batches[j..])))
  {
    hide Performs, Follows, Honoured, TrueWatch, Carries, RequestDeeds, KeysOf;
    if j == 0 {
      run' := run;
      NoRequests(deeds, poll.issued, times.landings, current, n);
    } else {
      var i := j - 1;
      run' := RequestsAreARun(sys, start, run, deeds, current, n, poll, times, batches, terms, fetched, i);
      RequestInTurn(sys, sys.watches[n], poll, times, batches, terms, fetched, i);
      run' := RequestIsAStep(sys, start, run', deeds + RequestDeeds(poll.issued, times.landings, current, n, i),
                             MomentBefore(times.fetch, times.landings, i), current, n, batches[i..], poll.issued[i],
                             times.landings[i]);
      OneRequestMore(deeds, poll.issued, times.landings, current, n, i);
      assert batches[i..][1..] == batches[j..];
    }
  }

  lemma NoRequests(deeds: seq<Deed>, issued: seq<ExtendRequest>, landings: seq<Landing>, current: u32, n: nat)
    requires |issued| == |landings|
    ensures deeds + RequestDeeds(issued, landings, current, n, 0) == deeds
  {
  }

  /** The fetch queues and batches what the snapshots say is due. */
  lemma FetchIsAStep(sys: System, start: State, run: Run, deeds: seq<Deed>, m: Moment, current: u32, n: nat,
                     snapshots: seq<EntrySnapshot>) returns (run': Run)
    requires Performs(sys, start, run, deeds, At(m, Between(current, n))) && n < |sys.watches|
    requires snapshots == Snapshots(sys, m.liveUntil, sys.watches[n].keys)
    ensures
      var batches := Plan(Due(snapshots, current, sys.watches[n].threshold), sys.cap);
      Performs(sys, start, run', deeds + [Deed(Fetched, m, current, n, None)], At(m, Extending(current, n, batches)))
  {
    hide Performs, Snapshots, Due, Plan;
    var batches := Plan(Due(snapshots, current, sys.watches[n].threshold), sys.cap);
    var s, s' := At(m, Between(current, n)), At(m, Extending(current, n, batches));
    KeeperActs(sys, start, run, deeds, s, Fetched, s', Deed(Fetched, m, current, n, None));
    run' := Append(run, Fetched, s');
  }

  lemma WatchEnds(sys: System, start: State, run: Run, deeds: seq<Deed>, m: Moment, current: u32, n: nat)
      returns (run': Run)
    requires Performs(sys, start, run, deeds, At(m, Extending(current, n, [])))
    ensures Performs(sys, start, run', deeds + [Deed(EndWatch, m, current, n, None)], At(m, Between(current, n + 1)))
  {
    hide Performs;
    var s, s' := At(m, Extending(current, n, [])), At(m, Between(current, n + 1));
    KeeperActs(sys, start, run, deeds, s, EndWatch, s', Deed(EndWatch, m, current, n, None));
    run' := Append(run, EndWatch, s');
  }

  /** A watch whose entries could be fetched. */
  lemma FetchedWatchIsARun(sys: System, start: State, run: Run, deeds: seq<Deed>, current: u32, n: nat, terms: Terms,
                           poll: WatchPoll, report: PollReport, times: WatchTimes) returns (run': Run)
    requires Performs(sys, start, run, deeds, At(times.fetch, Between(current, n)))
    requires n < |sys.watches| && Polled(sys.watches[n], current, sys.cap, terms, poll, report)
    requires TrueWatch(sys, sys.watches[n], poll, true, times) && |times.landings| == |poll.issued|
    ensures Performs(sys, start, run', deeds + WatchDeeds(poll, true, times, current, n),
                     At(AfterWatch(times), Between(current, n + 1)))
  {
    hide Performs, Due, Plan, Snapshots, RequestDeeds, At, WatchDeeds, FetchedAs, CarriesFirst, Honoured, Follows;
    var batches := Plan(Due(poll.snapshots, current, sys.watches[n].threshold), sys.cap);
    run' := FetchIsAStep(sys, start, run, deeds, times.fetch, current, n, poll.snapshots);
    var before := deeds + [Deed(Fetched, times.fetch, current, n, None)];
    run' := RequestsAreARun(sys, start, run', before, current, n, poll, times, batches, terms, true, |batches|);
    assert batches[|batches|..] == [];
    var between := before + RequestDeeds(poll.issued, times.landings, current, n, |poll.issued|);
    run' := WatchEnds(sys, start, run', between, AfterWatch(times), current, n);
    WatchDone(deeds, poll, times, current, n);
  }

  lemma WatchDone(deeds: seq<Deed>, poll: WatchPoll, times: WatchTimes, current: u32, n: nat)
    requires |times.landings| == |poll.issued|
    ensures deeds + [Deed(Fetched, times.fetch, current, n, None)] + RequestDeeds(poll.issued, times.landings, current, n, |poll.issued|)
         + [Deed(EndWatch, AfterWatch(times), current, n, None)] == deeds + WatchDeeds(poll, true, times, current, n)
  {
    hide RequestDeeds;
  }

  /** The poll of one watch, whether or not its entries could be fetched. */
  lemma WatchIsARun(sys: System, start: State, run: Run, deeds: seq<Deed>, m: Moment, current: u32, n: nat, terms: Terms,
                    poll: WatchPoll, report: Result<PollReport, PollError>, times: WatchTimes) returns (run': Run)
    requires Performs(sys, start, run, deeds, At(m, Between(current, n)))
    requires n < |sys.watches| && Ended(sys.watches[n], current, sys.cap, terms, poll, report)
    requires TrueWatch(sys, sys.watches[n], poll, report.Ok?, times) && Follows(m, times.fetch)
    requires |times.landings| == |poll.issued|
    ensures Performs(sys, start, run', deeds + WatchDeeds(poll, report.Ok?, times, current, n),
                     At(AfterWatch(times), Between(current, n + 1)))
  {
    hide Performs, Follows, Polled, FetchedAs, TrueWatch;
    run' := Passes(sys, start, run, deeds, m, Between(current, n), times.fetch);
    if report.Ok? {
      run' := FetchedWatchIsARun(sys, start, run', deeds, current, n, terms, poll, report.value, times);
    } else {
      var s, done := At(times.fetch, Between(current, n)), At(times.fetch, Between(current, n + 1));
      KeeperActs(sys, start, run', deeds, s, FetchFails, done, Deed(FetchFails, times.fetch, current, n, None));
      run' := Append(run', FetchFails, done);
    }
  }

  /** Each watch ended as specified, from answers that were true, in its turn. */
  lemma WatchInTurn(sys: System, terms: Terms, record: PollRecord)
    requires TruePoll(sys, terms, record) && record.reading.Ok?
    ensures |record.polls| == |sys.watches| && WellTimed(record) && record.reading.value == record.read.ledger
    ensures forall n :: 0 <= n < |record.polls| ==>
      && Ended(sys.watches[n], record.reading.value, sys.cap, terms, record.polls[n], record.reports[n])
      && TrueWatch(sys, sys.watches[n], record.polls[n], record.reports[n].Ok?, record.times[n])
      && Follows(MomentAt(record, n), record.times[n].fetch)
  {
    hide Ended, TrueWatch, Follows;
  }

  /** The first `n` watches of a poll. */
  lemma {:induction false} WatchesAreARun(sys: System, start: State, run: Run, deeds: seq<Deed>, terms: Terms,
                                          record: PollRecord, n: nat) returns (run': Run)
    requires TruePoll(sys, terms, record) && record.reading.Ok? && n <= |record.polls|
    requires Performs(sys, start, run, deeds, At(record.read, Between(record.reading.value, 0)))
    ensures Performs(sys, start, run', deeds + WatchesDeeds(record, n),
                     At(MomentAt(record, n), Between(record.reading.value, n)))
  {
    hide Performs, Follows, Ended, TrueWatch, WatchDeeds, TruePoll;
    WatchInTurn(sys, terms, record);
    if n == 0 {
      run' := run;
      assert deeds + WatchesDeeds(record, 0) == deeds;
    } else {
      run' := WatchesAreARun(sys, start, run, deeds, terms, record, n - 1);
      run' := WatchIsARun(sys, start, run', deeds + WatchesDeeds(record, n - 1), MomentAt(record, n - 1),
                          record.reading.value, n - 1, terms, record.polls[n - 1], record.reports[n - 1],
                          record.times[n - 1]);
      var here := WatchDeeds(record.polls[n - 1], record.reports[n - 1].Ok?, record.times[n - 1], record.read.ledger, n - 1);
      assert deeds + WatchesDeeds(record, n - 1) + here == deeds + WatchesDeeds(record, n);
    }
  }

  /**
   * A poll, ended as `PollOnce` ensures, takes the step system from rest to rest. Whatever the network answered, and
   * however many ledgers closed meanwhile, the keeper's steps in the run are exactly what it did, in order and at their
   * moments, and each request ends as the batch with the keys and the target that were asked for.
   */
  lemma PollIsARun(sys: System, start: State, run: Run, deeds: seq<Deed>, m: Moment, terms: Terms, record: PollRecord)
      returns (run': Run)
    requires Performs(sys, start, run, deeds, At(m, Idle))
    requires TruePoll(sys, terms, record) && Follows(m, record.read)
    ensures Performs(sys, start, run', deeds + PollDeeds(sys, terms, record), At(AfterRecord(record), Idle))
  {
    hide Performs, Follows, TrueWatch, FirstPolled;
    run' := Passes(sys, start, run, deeds, m, Idle, record.read);
    var idle := At(record.read, Idle);
    if record.reading.Err? {
      KeeperActs(sys, start, run', deeds, idle, ReadFails, idle, Deed(ReadFails, record.read, record.read.ledger, 0, None));
      run' := Append(run', ReadFails, idle);
    } else {
      var first := Deed(ReadLedger, record.read, record.read.ledger, 0, None);
      var begun := At(record.read, Between(record.reading.value, 0));
      KeeperActs(sys, start, run', deeds, idle, ReadLedger, begun, first);
      run' := Append(run', ReadLedger, begun);
      run' := WatchesAreARun(sys, start, run', deeds + [first], terms, record, |record.polls|);
      var last := Deed(EndPoll, AfterRecord(record), record.read.ledger, |record.polls|, None);
      var before := deeds + [first] + WatchesDeeds(record, |record.polls|);
      KeeperActs(sys, start, run', before, At(AfterRecord(record), Between(record.reading.value, |sys.watches|)),
                 EndPoll, At(AfterRecord(record), Idle), last);
      run' := Append(run', EndPoll, At(AfterRecord(record), Idle));
      assert before + [last] == deeds + PollDeeds(sys, terms, record);
    }
  }

  // ---------------------------------------------------------------------------
  // Whole histories
  // ---------------------------------------------------------------------------

  function MomentAfterPolls(m: Moment, history: seq<PollRecord>, n: nat): Moment
    requires n <= |history|
  {
    if n == 0 then m else AfterRecord(history[n - 1])
  }

  /** Polls one after the other. */
  ghost predicate TrueHistory(sys: System, terms: Terms, m: Moment, history: seq<PollRecord>) {
    forall n :: 0 <= n < |history| ==>
      TruePoll(sys, terms, history[n]) && Follows(MomentAfterPolls(m, history, n), history[n].read)
  }

  ghost function HistoryDeeds(sys: System, terms: Terms, history: seq<PollRecord>, n: nat): seq<Deed>
    requires n <= |history| && forall i :: 0 <= i < n ==> TruePoll(sys, terms, history[i])
  {
    if n == 0 then [] else HistoryDeeds(sys, terms, history, n - 1) + PollDeeds(sys, terms, history[n - 1])
  }

  lemma NothingDone(sys: System, s: State)
    ensures Performs(sys, s, Run([s], []), [], s)
  {
  }

  /** Every history of polls is a run of the step system from rest, in which the keeper does exactly what it did. */
  lemma {:induction false} HistoryIsARun(sys: System, terms: Terms, m: Moment, history: seq<PollRecord>, n: nat)
      returns (run: Run)
    requires TrueHistory(sys, terms, m, history) && n <= |history|
    ensures Performs(sys, At(m, Idle), run, HistoryDeeds(sys, terms, history, n),
                     At(MomentAfterPolls(m, history, n), Idle))
  {
    hide Performs, Follows, TruePoll, PollDeeds, AfterRecord;
    if n == 0 {
      run := Run([At(m, Idle)], []);
      NothingDone(sys, At(m, Idle));
    } else {
      run := HistoryIsARun(sys, terms, m, history, n - 1);
      run := PollIsARun(sys, At(m, Idle), run, HistoryDeeds(sys, terms, history, n - 1),
                        MomentAfterPolls(m, history, n - 1), terms, history[n - 1]);
    }
  }
}
