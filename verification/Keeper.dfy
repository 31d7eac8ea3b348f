/** The keeper's network surface: replies are an arbitrary function of the call number and the request. */
module KeeperRpc {
  import opened Machine
  import opened Wrappers

  datatype WatchKey = WatchKey(name: string, keyXdr: string)

  datatype EntrySnapshot = EntrySnapshot(name: string, keyXdr: string, liveUntil: u32, sizeBytes: u32)

  datatype ExtendOutcome = Submitted(txHash: string) | NoOp

  /** One logical extension: what was asked, from which call on and in how many calls, and how it ended. */
  datatype ExtendRequest = ExtendRequest(
    keys: seq<string>, extendTo: u32, firstCall: nat, attempts: nat, outcome: Result<ExtendOutcome, string>)

  class Rpc {
    const latestReply: nat -> Result<u32, string>
    const fetchReply: seq<WatchKey> -> (nat -> Result<seq<EntrySnapshot>, string>)
    const extendReply: (seq<string>, u32) -> (nat -> Result<ExtendOutcome, string>)
    var calls: nat
    var requests: seq<ExtendRequest>

    constructor (latest: nat -> Result<u32, string>,
                 fetch: seq<WatchKey> -> (nat -> Result<seq<EntrySnapshot>, string>),
                 extend: (seq<string>, u32) -> (nat -> Result<ExtendOutcome, string>))
      ensures latestReply == latest && fetchReply == fetch && extendReply == extend
      ensures calls == 0 && requests == []
    {
      latestReply, fetchReply, extendReply := latest, fetch, extend;
      calls, requests := 0, [];
    }
  }
}

/** One poll of the rent keeper: read the ledger once, then check and extend watch by watch. */
module Keeper {
  import opened Machine
  import opened Wrappers
  import opened Risk
  import opened Retry
  import opened KeeperMetrics
  import opened KeeperRpc

  datatype WatchConfig = WatchConfig(name: string, threshold: u32, extendTo: u32, keys: seq<WatchKey>)

  datatype PollReport = PollReport(watch: string, checked: nat, critical: nat, extendedBatches: nat, submitted: nat)

  datatype PollError = LatestLedgerFailed(error: string) | WatchFailed(watch: string, error: string)

  /** What one watch saw and asked for during one poll, from which call on and after how many fetches. */
  datatype WatchPoll = WatchPoll(
    firstCall: nat, fetchAttempts: nat, snapshots: seq<EntrySnapshot>, issued: seq<ExtendRequest>)

  /** How the network answers, and how the keeper retries. */
  datatype Terms = Terms(
    fetch: seq<WatchKey> -> (nat -> Result<seq<EntrySnapshot>, string>),
    reply: (seq<string>, u32) -> (nat -> Result<ExtendOutcome, string>),
    retry: RetryPolicy, transient: string -> bool)

  /** The fetch of a poll was retried as the policy says, and ended with `fetched`. */
  ghost predicate FetchedAs(terms: Terms, watch: WatchConfig, poll: WatchPoll, fetched: Result<seq<EntrySnapshot>, string>) {
    var op := terms.fetch(watch.keys);
    && RetryTrace(terms.retry, op, poll.firstCall, terms.transient, poll.fetchAttempts)
    && fetched == op(poll.firstCall + poll.fetchAttempts - 1)
  }

  /** The request was retried as the policy says, and ended with the network's answer to its last call. */
  ghost predicate Answered(terms: Terms, request: ExtendRequest) {
    var op := terms.reply(request.keys, request.extendTo);
    && RetryTrace(terms.retry, op, request.firstCall, terms.transient, request.attempts)
    && request.outcome == op(request.firstCall + request.attempts - 1)
  }

  predicate IsDue(snapshot: EntrySnapshot, current: u32, threshold: u32) {
    ShouldExtend(TtlRemaining(snapshot.liveUntil, current), threshold)
  }

  /** The entries a poll queues for extension, in the order they were fetched. */
  function Due(snapshots: seq<EntrySnapshot>, current: u32, threshold: u32): seq<BatchEntry> {
    if snapshots == [] then []
    else
      var n := |snapshots| - 1;
      var last := snapshots[n];
      Due(snapshots[..n], current, threshold) +
      if IsDue(last, current, threshold) then [BatchEntry(last.keyXdr, last.sizeBytes)] else []
  }

  function KeysOf(batch: seq<BatchEntry>): seq<string> {
    seq(|batch|, i requires 0 <= i < |batch| => batch[i].keyXdr)
  }

  function RequestedKeys(requests: seq<ExtendRequest>): seq<string> {
    if requests == [] then [] else requests[0].keys + RequestedKeys(requests[1..])
  }

  function SubmittedCount(requests: seq<ExtendRequest>): nat {
    if requests == [] then 0
    else
      var n := |requests| - 1;
      SubmittedCount(requests[..n]) + if OutcomeOf(requests[n]) == SubmittedOutcome then 1 else 0
  }

  /** Retries spent on requests: the calls beyond the first of each. */
  function RetriesIn(requests: seq<ExtendRequest>): nat {
    if requests == [] then 0
    else
      var n := |requests| - 1;
      RetriesIn(requests[..n]) + if requests[n].attempts > 0 then requests[n].attempts - 1 else 0
  }

  function OutcomeOf(request: ExtendRequest): Outcome {
    match request.outcome
    case Ok(Submitted(_)) => SubmittedOutcome
    case Ok(NoOp) => NoOpOutcome
    case Err(_) => ErrorOutcome
  }

  /** The outcome counters after a watch issued `requests`; a poll that issues none counts one no-op. */
  function Tally(counter: map<(string, Outcome), nat>, name: string, requests: seq<ExtendRequest>)
    : map<(string, Outcome), nat>
  {
    if requests == [] then counter
    else
      var n := |requests| - 1;
      Bump(Tally(counter, name, requests[..n]), (name, OutcomeOf(requests[n])), 1)
  }

  function Tallied(counter: map<(string, Outcome), nat>, name: string, requests: seq<ExtendRequest>)
    : map<(string, Outcome), nat>
  {
    if requests == [] then Bump(counter, (name, NoOpOutcome), 1) else Tally(counter, name, requests)
  }

  /** `issued` carries one request per batch for the first batches, in order, each retried as the policy says. */
  ghost predicate CarriesFirst(issued: seq<ExtendRequest>, batches: seq<seq<BatchEntry>>, watch: WatchConfig,
                               terms: Terms)
  {
    && |issued| <= |batches|
    && forall i :: 0 <= i < |issued| ==>
         && issued[i].keys == KeysOf(batches[i])
         && issued[i].extendTo == watch.extendTo
         && Answered(terms, issued[i])
  }

  /** `issued` carries one request for every batch. */
  ghost predicate Carries(issued: seq<ExtendRequest>, batches: seq<seq<BatchEntry>>, watch: WatchConfig, terms: Terms) {
    |issued| == |batches| && CarriesFirst(issued, batches, watch, terms)
  }

  /** What a poll of one watch did when it could fetch `poll.snapshots`. */
  ghost predicate Polled(watch: WatchConfig, current: u32, cap: u32, terms: Terms, poll: WatchPoll, report: PollReport) {
    var due := Due(poll.snapshots, current, watch.threshold);
    && FetchedAs(terms, watch, poll, Ok(poll.snapshots))
    && Carries(poll.issued, Plan(due, cap), watch, terms)
    && report == PollReport(watch.name, |poll.snapshots|, |due|, |poll.issued|, SubmittedCount(poll.issued))
  }

  lemma CarriesOneMore(issued: seq<ExtendRequest>, request: ExtendRequest, batches: seq<seq<BatchEntry>>,
                       watch: WatchConfig, terms: Terms)
    requires |issued| < |batches| && CarriesFirst(issued, batches, watch, terms)
    requires request.keys == KeysOf(batches[|issued|]) && request.extendTo == watch.extendTo && Answered(terms, request)
    ensures CarriesFirst(issued + [request], batches, watch, terms)
  {
  }

  /** The requests are counted: outcomes, retries, and how many were submitted. */
  ghost predicate Accounted(before: Counters, after: Counters, name: string, issued: seq<ExtendRequest>, submitted: nat) {
    && submitted == SubmittedCount(issued)
    && after == Counters(Bump(before.retries, name, RetriesIn(issued)), before.pollErrors,
                         Tally(before.extensions, name, issued))
  }

  lemma NothingAccounted(counters: Counters, name: string)
    ensures Accounted(counters, counters, name, [], 0)
  {
  }

  lemma AccountedMore(before: Counters, after: Counters, name: string, issued: seq<ExtendRequest>,
                      request: ExtendRequest, submitted: nat)
    requires Accounted(before, after, name, issued, submitted) && request.attempts >= 1
    ensures
      var outcome := OutcomeOf(request);
      var counted := Counters(Bump(after.retries, name, request.attempts - 1), after.pollErrors,
                              Bump(after.extensions, (name, outcome), 1));
      Accounted(before, counted, name, issued + [request], submitted + if outcome == SubmittedOutcome then 1 else 0)
  {
    assert (issued + [request])[..|issued|] == issued;
    BumpTwice(before.retries, name, RetriesIn(issued), request.attempts - 1);
  }

  lemma BumpTwice(counter: map<string, nat>, name: string, a: nat, b: nat)
    ensures Bump(Bump(counter, name, a), name, b) == Bump(counter, name, a + b)
  {
  }

  /** How the poll of one watch ended. */
  ghost predicate Ended(watch: WatchConfig, current: u32, cap: u32, terms: Terms, poll: WatchPoll,
                        report: Result<PollReport, PollError>)
  {
    match report
    case Ok(done) => Polled(watch, current, cap, terms, poll, done)
    case Err(e) => e.WatchFailed? && e.watch == watch.name && FetchedAs(terms, watch, poll, Err(e.error)) && poll.issued == []
  }

  /** The counters after one watch was polled. */
  function AfterPoll(counters: Counters, watch: WatchConfig, poll: WatchPoll, failed: bool): Counters {
    Counters(
      Bump(counters.retries, watch.name, (if poll.fetchAttempts > 0 then poll.fetchAttempts - 1 else 0) + RetriesIn(poll.issued)),
      Bump(counters.pollErrors, watch.name, if failed then 1 else 0),
      if failed then counters.extensions else Tallied(counters.extensions, watch.name, poll.issued))
  }

  /** The counters after the first watches were polled. */
  function AfterPolls(counters: Counters, watches: seq<WatchConfig>, polls: seq<WatchPoll>,
                      reports: seq<Result<PollReport, PollError>>): Counters
    requires |reports| == |polls| <= |watches|
  {
    if polls == [] then counters
    else
      var n := |polls| - 1;
      AfterPoll(AfterPolls(counters, watches, polls[..n], reports[..n]), watches[n], polls[n], reports[n].Err?)
  }

  lemma AfterOneMore(counters: Counters, watches: seq<WatchConfig>, polls: seq<WatchPoll>,
                     reports: seq<Result<PollReport, PollError>>, poll: WatchPoll, report: Result<PollReport, PollError>)
    requires |reports| == |polls| < |watches|
    ensures AfterPolls(counters, watches, polls + [poll], reports + [report])
         == AfterPoll(AfterPolls(counters, watches, polls, reports), watches[|polls|], poll, report.Err?)
  {
    assert (polls + [poll])[..|polls|] == polls && (reports + [report])[..|polls|] == reports;
  }

  /** How the polls of the first watches ended, watch by watch. */
  ghost predicate FirstPolled(watches: seq<WatchConfig>, current: u32, cap: u32, terms: Terms, polls: seq<WatchPoll>,
                              reports: seq<Result<PollReport, PollError>>)
  {
    && |reports| == |polls| <= |watches|
    && forall i :: 0 <= i < |polls| ==> Ended(watches[i], current, cap, terms, polls[i], reports[i])
  }

  /** How a whole poll ended, given what the reading of the ledger came to. */
  ghost predicate PolledAll(watches: seq<WatchConfig>, cap: u32, terms: Terms, reading: Result<u32, string>,
                            reports: seq<Result<PollReport, PollError>>, polls: seq<WatchPoll>)
  {
    match reading
    case Err(e) => reports == [Err(LatestLedgerFailed(e))] && polls == []
    case Ok(current) => |polls| == |watches| && FirstPolled(watches, current, cap, terms, polls, reports)
  }

  lemma OneMoreIssued(polls: seq<WatchPoll>, poll: WatchPoll)
    ensures IssuedBy(polls + [poll]) == IssuedBy(polls) + poll.issued
  {
    assert (polls + [poll])[..|polls|] == polls;
  }

  function IssuedBy(polls: seq<WatchPoll>): seq<ExtendRequest> {
    if polls == [] then []
    else
      var n := |polls| - 1;
      IssuedBy(polls[..n]) + polls[n].issued
  }

  class Keeper {
    const rpc: Rpc
    const watches: seq<WatchConfig>
    const metrics: Metrics
    const maxBatchBytes: u32
    const retry: RetryPolicy
    const transient: string -> bool

    constructor (rpc: Rpc, watches: seq<WatchConfig>, metrics: Metrics, maxBatchBytes: u32, retry: RetryPolicy,
                 transient: string -> bool)
      ensures this.rpc == rpc && this.watches == watches && this.metrics == metrics
      ensures this.maxBatchBytes == maxBatchBytes && this.retry == retry && this.transient == transient
    {
      this.rpc, this.watches, this.metrics := rpc, watches, metrics;
      this.maxBatchBytes, this.retry, this.transient := maxBatchBytes, retry, transient;
    }

    ghost function Dealings(): Terms {
      Terms(rpc.fetchReply, rpc.extendReply, retry, transient)
    }

    /** One extension through bounded retry, recorded as one request. */
    method Extend(watch: WatchConfig, keys: seq<string>)
        returns (outcome: Result<ExtendOutcome, string>, ghost request: ExtendRequest)
      modifies rpc, metrics`retries
      ensures rpc.requests == old(rpc.requests) + [request]
      ensures request == ExtendRequest(keys, watch.extendTo, old(rpc.calls), request.attempts, outcome)
      ensures Answered(Dealings(), request) && request.attempts >= 1
      ensures metrics.retries == Bump(old(metrics.retries), watch.name, request.attempts - 1)
    {
      var start := rpc.calls;
      var calls, sleeps;
      outcome, calls, sleeps :=
        WithRetry(retry, metrics, watch.name, rpc.extendReply(keys, watch.extendTo), start, transient);
      rpc.calls := start + calls;
      rpc.requests := rpc.requests + [ExtendRequest(keys, watch.extendTo, start, calls, outcome)];
      request := ExtendRequest(keys, watch.extendTo, start, calls, outcome);
    }

    /** Extends one batch and counts the outcome. */
    method SubmitBatch(watch: WatchConfig, batch: seq<BatchEntry>) returns (accepted: bool, ghost request: ExtendRequest)
      modifies rpc, metrics`retries, metrics`extensions
      ensures rpc.requests == old(rpc.requests) + [request]
      ensures request.keys == KeysOf(batch) && request.extendTo == watch.extendTo
      ensures Answered(Dealings(), request) && request.attempts >= 1
      ensures accepted <==> OutcomeOf(request) == SubmittedOutcome
      ensures metrics.extensions == Bump(old(metrics.extensions), (watch.name, OutcomeOf(request)), 1)
      ensures metrics.retries == Bump(old(metrics.retries), watch.name, request.attempts - 1)
    {
      var outcome;
      outcome, request := Extend(watch, KeysOf(batch));
      accepted := false;
      match outcome {
        case Ok(Submitted(_)) =>
          accepted := true;
          metrics.IncExtensions(watch.name, SubmittedOutcome);
        case Ok(NoOp) => metrics.IncExtensions(watch.name, NoOpOutcome);
        case Err(_) => metrics.IncExtensions(watch.name, ErrorOutcome);
      }
    }

    /** Collects the due entries and counts the critical ones. */
    method Assess(watch: WatchConfig, current: u32, snapshots: seq<EntrySnapshot>)
        returns (due: seq<BatchEntry>, critical: nat)
      ensures due == Due(snapshots, current, watch.threshold)
      ensures critical == |due|
    {
      due, critical := [], 0;
      for i := 0 to |snapshots|
        invariant due == Due(snapshots[..i], current, watch.threshold)
        invariant critical == |due|
      {
        var snapshot := snapshots[i];
        DueOneMore(snapshots, i, current, watch.threshold);
        var ttl := TtlRemaining(snapshot.liveUntil, current);
        if Classify(ttl, watch.threshold, watch.extendTo) == Critical {
          critical := critical + 1;
        }
        if ShouldExtend(ttl, watch.threshold) {
          due := due + [BatchEntry(snapshot.keyXdr, snapshot.sizeBytes)];
        }
      }
      assert snapshots[..|snapshots|] == snapshots;
    }

    /** Sends every batch, whatever became of the ones before it. */
    method SubmitBatches(watch: WatchConfig, batches: seq<seq<BatchEntry>>)
        returns (submitted: nat, ghost issued: seq<ExtendRequest>)
      modifies rpc, metrics`retries, metrics`extensions
      ensures rpc.requests == old(rpc.requests) + issued
      ensures Carries(issued, batches, watch, Dealings())
      ensures Accounted(old(metrics.Counts()), metrics.Counts(), watch.name, issued, submitted)
    {
      submitted, issued := 0, [];
      hide Answered, KeysOf, OutcomeOf;
      NothingAccounted(metrics.Counts(), watch.name);
      hide Accounted;
      for i := 0 to |batches|
        invariant rpc.requests == old(rpc.requests) + issued
        invariant |issued| == i && CarriesFirst(issued, batches, watch, Dealings())
        invariant Accounted(old(metrics.Counts()), metrics.Counts(), watch.name, issued, submitted)
      {
        ghost var before := metrics.Counts();
        var accepted;
        ghost var request;
        accepted, request := SubmitBatch(watch, batches[i]);
        hide CarriesFirst;
        CarriesOneMore(issued, request, batches, watch, Dealings());
        AccountedMore(old(metrics.Counts()), before, watch.name, issued, request, submitted);
        if accepted {
          submitted := submitted + 1;
        }
        issued := issued + [request];
      }
    }

    method Fetch(watch: WatchConfig) returns (fetched: Result<seq<EntrySnapshot>, string>, ghost calls: nat)
      modifies rpc`calls, metrics`retries
      ensures RetryTrace(retry, rpc.fetchReply(watch.keys), old(rpc.calls), transient, calls)
      ensures fetched == rpc.fetchReply(watch.keys)(old(rpc.calls) + calls - 1)
      ensures rpc.calls == old(rpc.calls) + calls
      ensures metrics.retries == Bump(old(metrics.retries), watch.name, calls - 1)
    {
      var made, sleeps;
      fetched, made, sleeps :=
        WithRetry(retry, metrics, watch.name, rpc.fetchReply(watch.keys), rpc.calls, transient);
      rpc.calls := rpc.calls + made;
      calls := made;
    }

    /** Queues what is due and extends it batch by batch. */
    method ExtendDue(watch: WatchConfig, current: u32, snapshots: seq<EntrySnapshot>)
        returns (report: PollReport, ghost issued: seq<ExtendRequest>)
      modifies rpc, metrics`retries, metrics`extensions
      ensures rpc.requests == old(rpc.requests) + issued
      ensures Carries(issued, Plan(Due(snapshots, current, watch.threshold), maxBatchBytes), watch, Dealings())
      ensures report == PollReport(watch.name, |snapshots|, |Due(snapshots, current, watch.threshold)|, |issued|,
                                   SubmittedCount(issued))
      ensures metrics.extensions == Tallied(old(metrics.extensions), watch.name, issued)
      ensures metrics.retries == Bump(old(metrics.retries), watch.name, RetriesIn(issued))
    {
      var due, critical := Assess(watch, current, snapshots);
      if due == [] {
        metrics.IncExtensions(watch.name, NoOpOutcome);
        return PollReport(watch.name, |snapshots|, critical, 0, 0), [];
      }
      var batches := PlanBatches(due, maxBatchBytes);
      var submitted;
      submitted, issued := SubmitBatches(watch, batches);
      report := PollReport(watch.name, |snapshots|, critical, |batches|, submitted);
    }

    method PollWatch(watch: WatchConfig, current: u32)
        returns (result: Result<PollReport, string>, ghost poll: WatchPoll)
      modifies rpc, metrics`retries, metrics`extensions
      ensures rpc.requests == old(rpc.requests) + poll.issued
      ensures result.Ok? ==> Polled(watch, current, maxBatchBytes, Dealings(), poll, result.value)
      ensures result.Err? ==> FetchedAs(Dealings(), watch, poll, Err(result.error)) && poll.issued == []
      ensures poll.firstCall == old(rpc.calls)
      ensures metrics.Counts() == AfterPoll(old(metrics.Counts()), watch, poll, result.Err?)
        .(pollErrors := old(metrics.pollErrors))
    {
      hide Plan, Due, Answered, CarriesFirst, SubmittedCount, RetryTrace;
      ghost var start := rpc.calls;
      var fetched;
      ghost var calls;
      fetched, calls := Fetch(watch);
      if fetched.Err? {
        return Err(fetched.error), WatchPoll(start, calls, [], []);
      }
      var report;
      ghost var issued;
      report, issued := ExtendDue(watch, current, fetched.value);
      BumpTwice(old(metrics.retries), watch.name, calls - 1, RetriesIn(issued));
      return Ok(report), WatchPoll(start, calls, fetched.value, issued);
    }

    /** Polls one watch and counts the poll as failed when its entries could not be fetched. */
    method PollAndCount(watch: WatchConfig, current: u32)
        returns (report: Result<PollReport, PollError>, ghost poll: WatchPoll)
      modifies rpc, metrics`retries, metrics`extensions, metrics`pollErrors
      ensures rpc.requests == old(rpc.requests) + poll.issued
      ensures Ended(watch, current, maxBatchBytes, Dealings(), poll, report)
      ensures poll.firstCall == old(rpc.calls)
      ensures metrics.Counts() == AfterPoll(old(metrics.Counts()), watch, poll, report.Err?)
    {
      hide Polled, FetchedAs, Tallied, RetriesIn;
      var result;
      result, poll := PollWatch(watch, current);
      match result {
        case Ok(done) => report := Ok(done);
        case Err(e) =>
          metrics.IncPollError(watch.name);
          report := Err(WatchFailed(watch.name, e));
      }
    }

    /** Polls the watches in turn from one ledger reading; a watch that fails does not stop the others. */
    method PollWatches(current: u32) returns (reports: seq<Result<PollReport, PollError>>, ghost polls: seq<WatchPoll>)
      modifies rpc, metrics`retries, metrics`extensions, metrics`pollErrors
      ensures rpc.requests == old(rpc.requests) + IssuedBy(polls)
      ensures |polls| == |watches| && FirstPolled(watches, current, maxBatchBytes, Dealings(), polls, reports)
      ensures metrics.Counts() == AfterPolls(old(metrics.Counts()), watches, polls, reports)
    {
      hide Ended, AfterPoll;
      reports, polls := [], [];
      for i := 0 to |watches|
        invariant rpc.requests == old(rpc.requests) + IssuedBy(polls)
        invariant |polls| == i && FirstPolled(watches, current, maxBatchBytes, Dealings(), polls, reports)
        invariant metrics.Counts() == AfterPolls(old(metrics.Counts()), watches, polls, reports)
      {
        var report;
        ghost var poll;
        report, poll := PollAndCount(watches[i], current);
        hide IssuedBy, AfterPolls;
        OneMoreIssued(polls, poll);
        AfterOneMore(old(metrics.Counts()), watches, polls, reports, poll, report);
        polls := polls + [poll];
        reports := reports + [report];
      }
    }

    /**
     * One poll: the ledger is read once, and every watch works from that, by then stale, reading. When the ledger
     * cannot be read, nothing else happens.
     */
    method PollOnce()
        returns (reports: seq<Result<PollReport, PollError>>, ghost calls: nat, ghost polls: seq<WatchPoll>)
      modifies rpc, metrics`retries, metrics`extensions, metrics`pollErrors
      ensures RetryTrace(retry, rpc.latestReply, old(rpc.calls), transient, calls)
      ensures rpc.requests == old(rpc.requests) + IssuedBy(polls)
      ensures
        var reading := rpc.latestReply(old(rpc.calls) + calls - 1);
        PolledAll(watches, maxBatchBytes, Dealings(), reading, reports, polls)
      ensures
        var before := old(metrics.Counts());
        var counted := before.(retries := Bump(before.retries, "global", calls - 1));
        metrics.Counts() ==
          if rpc.latestReply(old(rpc.calls) + calls - 1).Err? then counted.(pollErrors := Bump(before.pollErrors, "global", 1))
          else AfterPolls(counted, watches, polls, reports)
    {
      hide FirstPolled, AfterPolls;
      var ledger, made, sleeps := WithRetry(retry, metrics, "global", rpc.latestReply, rpc.calls, transient);
      rpc.calls := rpc.calls + made;
      calls := made;
      if ledger.Err? {
        metrics.IncPollError("global");
        reports, polls := [Err(LatestLedgerFailed(ledger.error))], [];
        return;
      }
      reports, polls := PollWatches(ledger.value);
    }
  }

  // ---------------------------------------------------------------------------
  // Coverage and accounting
  // ---------------------------------------------------------------------------

  /** `at` lists, in order and once each, exactly the first `n` snapshots at or below the threshold; `due` queues those. */
  ghost predicate QueuesCritical(at: seq<nat>, due: seq<BatchEntry>, snapshots: seq<EntrySnapshot>, n: nat,
                                 current: u32, threshold: u32)
    requires n <= |snapshots|
  {
    && |at| == |due|
    && (forall i, j :: 0 <= i < j < |at| ==> at[i] < at[j])
    && (forall i :: 0 <= i < |at| ==>
          && at[i] < n
          && snapshots[at[i]].liveUntil <= current + threshold
          && due[i] == BatchEntry(snapshots[at[i]].keyXdr, snapshots[at[i]].sizeBytes))
    && (forall k :: 0 <= k < n && snapshots[k].liveUntil <= current + threshold ==> k in at)
  }

  lemma DueAreTheCriticalOnes(snapshots: seq<EntrySnapshot>, current: u32, threshold: u32) returns (at: seq<nat>)
    ensures QueuesCritical(at, Due(snapshots, current, threshold), snapshots, |snapshots|, current, threshold)
  {
    at := DueOfFirst(snapshots, |snapshots|, current, threshold);
    assert snapshots[..|snapshots|] == snapshots;
  }

  lemma {:induction false} DueOfFirst(snapshots: seq<EntrySnapshot>, n: nat, current: u32, threshold: u32)
      returns (at: seq<nat>)
    requires n <= |snapshots|
    ensures QueuesCritical(at, Due(snapshots[..n], current, threshold), snapshots, n, current, threshold)
  {
    if n == 0 {
      at := [];
    } else {
      hide QueuesCritical;
      var before := DueOfFirst(snapshots, n - 1, current, threshold);
      DueOneMore(snapshots, n - 1, current, threshold);
      hide Due;
      if IsDue(snapshots[n - 1], current, threshold) {
        at := before + [n - 1];
        QueueOneMore(before, Due(snapshots[..n - 1], current, threshold), snapshots, n - 1, current, threshold);
      } else {
        at := before;
        QueueNoMore(before, Due(snapshots[..n - 1], current, threshold), snapshots, n - 1, current, threshold);
      }
    }
  }

  lemma QueueNoMore(at: seq<nat>, due: seq<BatchEntry>, snapshots: seq<EntrySnapshot>, n: nat, current: u32,
                    threshold: u32)
    requires n < |snapshots| && QueuesCritical(at, due, snapshots, n, current, threshold)
    requires snapshots[n].liveUntil > current + threshold
    ensures QueuesCritical(at, due, snapshots, n + 1, current, threshold)
  {
  }

  lemma DueOneMore(snapshots: seq<EntrySnapshot>, n: nat, current: u32, threshold: u32)
    requires n < |snapshots|
    ensures Due(snapshots[..n + 1], current, threshold) == Due(snapshots[..n], current, threshold) +
      if IsDue(snapshots[n], current, threshold) then [BatchEntry(snapshots[n].keyXdr, snapshots[n].sizeBytes)] else []
  {
    assert snapshots[..n + 1][..n] == snapshots[..n];
  }

  lemma QueueOneMore(at: seq<nat>, due: seq<BatchEntry>, snapshots: seq<EntrySnapshot>, n: nat, current: u32,
                     threshold: u32)
    requires n < |snapshots| && QueuesCritical(at, due, snapshots, n, current, threshold)
    requires snapshots[n].liveUntil <= current + threshold
    ensures
      var entry := BatchEntry(snapshots[n].keyXdr, snapshots[n].sizeBytes);
      QueuesCritical(at + [n], due + [entry], snapshots, n + 1, current, threshold)
  {
    assert forall k :: k in at ==> k in at + [n];
    assert (at + [n])[|at|] == n;
  }

  lemma {:induction false} KeysOfConcat(a: seq<BatchEntry>, b: seq<BatchEntry>)
    ensures KeysOf(a + b) == KeysOf(a) + KeysOf(b)
  {
    assert forall i :: 0 <= i < |a + b| ==> KeysOf(a + b)[i] == (KeysOf(a) + KeysOf(b))[i];
  }

  lemma {:induction false} CarriedKeys(issued: seq<ExtendRequest>, batches: seq<seq<BatchEntry>>, watch: WatchConfig,
                                       terms: Terms)
    requires Carries(issued, batches, watch, terms)
    ensures RequestedKeys(issued) == KeysOf(Flatten(batches))
  {
    if issued != [] {
      CarriedKeys(issued[1..], batches[1..], watch, terms);
      KeysOfConcat(batches[0], Flatten(batches[1..]));
    }
  }

  /**
   * Every due key is asked for exactly once and in order, whichever requests fail, and nothing else is;
   * the report counts what happened.
   */
  lemma PollCoversDueKeys(watch: WatchConfig, current: u32, cap: u32, terms: Terms, poll: WatchPoll, report: PollReport)
    requires Polled(watch, current, cap, terms, poll, report)
    ensures RequestedKeys(poll.issued) == KeysOf(Due(poll.snapshots, current, watch.threshold))
    ensures report.critical == |RequestedKeys(poll.issued)|
    ensures report.submitted == HowMany(poll.issued, WasSubmitted)
    ensures report.submitted <= report.extendedBatches == |poll.issued| <= report.critical <= report.checked
    ensures report.extendedBatches == 0 <==> report.critical == 0
  {
    var due := Due(poll.snapshots, current, watch.threshold);
    PlanIsFaithful(due, cap);
    CarriedKeys(poll.issued, Plan(due, cap), watch, terms);
    var batches := Plan(due, cap);
    assert forall i :: 0 <= i < |batches| ==> batches[i] in batches;
    FlattenIsLonger(batches);
    DueIsNoLonger(poll.snapshots, current, watch.threshold);
    SubmittedIsNoMore(poll.issued);
    SubmittedAreTheSubmissions(poll.issued);
  }

  lemma {:induction false} FlattenIsLonger<T>(batches: seq<seq<T>>)
    requires forall i :: 0 <= i < |batches| ==> batches[i] != []
    ensures |batches| <= |Flatten(batches)|
  {
    if batches != [] {
      FlattenIsLonger(batches[1..]);
    }
  }

  lemma DueIsNoLonger(snapshots: seq<EntrySnapshot>, current: u32, threshold: u32)
    ensures |Due(snapshots, current, threshold)| <= |snapshots|
  {
  }

  lemma SubmittedIsNoMore(requests: seq<ExtendRequest>)
    ensures SubmittedCount(requests) <= |requests|
  {
  }

  function OutcomeTotal(counter: map<(string, Outcome), nat>, name: string): nat {
    Count(counter, (name, SubmittedOutcome)) + Count(counter, (name, NoOpOutcome)) + Count(counter, (name, ErrorOutcome))
  }

  // What the network answered, in its own terms.

  predicate WasSubmitted(request: ExtendRequest) {
    request.outcome.Ok? && request.outcome.value.Submitted?
  }

  predicate WasNoOp(request: ExtendRequest) {
    request.outcome.Ok? && request.outcome.value.NoOp?
  }

  predicate HasFailed(request: ExtendRequest) {
    request.outcome.Err?
  }

  function HowMany<T>(items: seq<T>, holds: T -> bool): nat {
    if items == [] then 0 else (if holds(items[0]) then 1 else 0) + HowMany(items[1..], holds)
  }

  lemma {:induction false} HowManyMore<T>(items: seq<T>, last: T, holds: T -> bool)
    ensures HowMany(items + [last], holds) == HowMany(items, holds) + if holds(last) then 1 else 0
  {
    if items == [] {
      assert [last][1..] == [] && items + [last] == [last];
    } else {
      assert (items + [last])[1..] == items[1..] + [last];
      HowManyMore(items[1..], last, holds);
    }
  }

  lemma HowManyLast<T>(items: seq<T>, holds: T -> bool)
    requires items != []
    ensures HowMany(items, holds) == HowMany(items[..|items| - 1], holds) + if holds(items[|items| - 1]) then 1 else 0
  {
    assert items == items[..|items| - 1] + [items[|items| - 1]];
    HowManyMore(items[..|items| - 1], items[|items| - 1], holds);
  }

  lemma {:induction false} SubmittedAreTheSubmissions(requests: seq<ExtendRequest>)
    ensures SubmittedCount(requests) == HowMany(requests, WasSubmitted)
  {
    if requests != [] {
      SubmittedAreTheSubmissions(requests[..|requests| - 1]);
      HowManyLast(requests, WasSubmitted);
    }
  }

  /** Outcome counters after requests: by what the network answered, for this watch only. */
  lemma {:induction false} TallyCountsAnswers(counter: map<(string, Outcome), nat>, name: string,
                                              requests: seq<ExtendRequest>)
    ensures
      var after := Tally(counter, name, requests);
      && Count(after, (name, SubmittedOutcome)) == Count(counter, (name, SubmittedOutcome)) + HowMany(requests, WasSubmitted)
      && Count(after, (name, NoOpOutcome)) == Count(counter, (name, NoOpOutcome)) + HowMany(requests, WasNoOp)
      && Count(after, (name, ErrorOutcome)) == Count(counter, (name, ErrorOutcome)) + HowMany(requests, HasFailed)
    ensures forall other, outcome :: other != name ==>
      Count(Tally(counter, name, requests), (other, outcome)) == Count(counter, (other, outcome))
  {
    if requests != [] {
      TallyCountsAnswers(counter, name, requests[..|requests| - 1]);
      HowManyLast(requests, WasSubmitted);
      HowManyLast(requests, WasNoOp);
      HowManyLast(requests, HasFailed);
    }
  }

  /** Every answer is of one of the three kinds. */
  lemma {:induction false} AnswersAddUp(requests: seq<ExtendRequest>)
    ensures HowMany(requests, WasSubmitted) + HowMany(requests, WasNoOp) + HowMany(requests, HasFailed) == |requests|
  {
    if requests != [] {
      AnswersAddUp(requests[1..]);
    }
  }

  /**
   * A completed poll of a watch raises its outcome counters by one per request, by what the network answered, or the
   * no-op counter by one when nothing is due; and it reports the submissions.
   */
  lemma PollIsCounted(counter: map<(string, Outcome), nat>, watch: WatchConfig, current: u32, cap: u32, terms: Terms,
                      poll: WatchPoll, report: PollReport)
    requires Polled(watch, current, cap, terms, poll, report)
    ensures
      var name, after := watch.name, Tallied(counter, watch.name, poll.issued);
      && report.submitted == HowMany(poll.issued, WasSubmitted)
      && Count(after, (name, SubmittedOutcome)) == Count(counter, (name, SubmittedOutcome)) + report.submitted
      && Count(after, (name, NoOpOutcome)) == Count(counter, (name, NoOpOutcome)) +
           (if report.critical == 0 then 1 else HowMany(poll.issued, WasNoOp))
      && Count(after, (name, ErrorOutcome)) == Count(counter, (name, ErrorOutcome)) + HowMany(poll.issued, HasFailed)
      && OutcomeTotal(after, name) == OutcomeTotal(counter, name) + Max(1, report.extendedBatches)
      && forall other, outcome :: other != name ==> Count(after, (other, outcome)) == Count(counter, (other, outcome))
  {
    TallyCountsAnswers(counter, watch.name, poll.issued);
    SubmittedAreTheSubmissions(poll.issued);
    AnswersAddUp(poll.issued);
    PollCoversDueKeys(watch, current, cap, terms, poll, report);
    hide Polled, Tally, HowMany;
  }

  // ---------------------------------------------------------------------------
  // The counters over a whole poll
  // ---------------------------------------------------------------------------

  /** The calls a poll of one watch made to the network. */
  function CallsOf(poll: WatchPoll): nat {
    poll.fetchAttempts + AttemptsOf(poll.issued)
  }

  function AttemptsOf(requests: seq<ExtendRequest>): nat {
    if requests == [] then 0 else requests[0].attempts + AttemptsOf(requests[1..])
  }

  lemma {:induction false} AttemptsMore(requests: seq<ExtendRequest>, last: ExtendRequest)
    ensures AttemptsOf(requests + [last]) == AttemptsOf(requests) + last.attempts
  {
    if requests == [] {
      assert requests + [last] == [last] && [last][1..] == [];
    } else {
      assert (requests + [last])[1..] == requests[1..] + [last];
      AttemptsMore(requests[1..], last);
    }
  }

  lemma {:induction false} RetriesAreExtraCalls(requests: seq<ExtendRequest>)
    requires forall i :: 0 <= i < |requests| ==> requests[i].attempts >= 1
    ensures RetriesIn(requests) + |requests| == AttemptsOf(requests)
  {
    if requests != [] {
      var n := |requests| - 1;
      RetriesAreExtraCalls(requests[..n]);
      AttemptsMore(requests[..n], requests[n]);
      assert requests == requests[..n] + [requests[n]];
    }
  }

  /** Every operation of the poll was called at least once. */
  lemma OperationsWereCalled(watch: WatchConfig, current: u32, cap: u32, terms: Terms, poll: WatchPoll,
                             report: Result<PollReport, PollError>)
    requires Ended(watch, current, cap, terms, poll, report)
    ensures poll.fetchAttempts >= 1 && forall i :: 0 <= i < |poll.issued| ==> poll.issued[i].attempts >= 1
  {
  }

  /**
   * What the poll of one watch does to the counters: the retries of its label rise by the calls beyond the first of
   * each operation, its poll errors by one exactly when the fetch failed, and no other label's move.
   */
  lemma WatchMovesCounters(counters: Counters, watch: WatchConfig, current: u32, cap: u32, terms: Terms, poll: WatchPoll,
                           report: Result<PollReport, PollError>)
    requires Ended(watch, current, cap, terms, poll, report)
    ensures
      var name, after := watch.name, AfterPoll(counters, watch, poll, report.Err?);
      && Count(after.retries, name) + 1 + |poll.issued| == Count(counters.retries, name) + CallsOf(poll)
      && Count(after.pollErrors, name) == Count(counters.pollErrors, name) + (if report.Err? then 1 else 0)
      && (report.Err? ==> after.extensions == counters.extensions)
      && forall other :: other != name ==>
           && Count(after.retries, other) == Count(counters.retries, other)
           && Count(after.pollErrors, other) == Count(counters.pollErrors, other)
  {
    OperationsWereCalled(watch, current, cap, terms, poll, report);
    RetriesAreExtraCalls(poll.issued);
    hide Ended, Tallied, RetriesIn, AttemptsOf;
  }

  /** How many of the first `n` watches have this label and failed to be polled. */
  function FailedPolls(watches: seq<WatchConfig>, reports: seq<Result<PollReport, PollError>>, name: string, n: nat): nat
    requires n <= |reports| <= |watches|
  {
    if n == 0 then 0
    else FailedPolls(watches, reports, name, n - 1) + if watches[n - 1].name == name && reports[n - 1].Err? then 1 else 0
  }

  /** What the first `n` watches of this label reported as submitted. */
  function SubmittedBy(watches: seq<WatchConfig>, reports: seq<Result<PollReport, PollError>>, name: string, n: nat): nat
    requires n <= |reports| <= |watches|
  {
    if n == 0 then 0
    else
      SubmittedBy(watches, reports, name, n - 1) +
      if watches[n - 1].name == name && reports[n - 1].Ok? then reports[n - 1].value.submitted else 0
  }

  lemma {:induction false} FoldPrefix(watches: seq<WatchConfig>, reports: seq<Result<PollReport, PollError>>, name: string,
                                      m: nat, n: nat)
    requires n <= m <= |reports| <= |watches|
    ensures FailedPolls(watches, reports[..m], name, n) == FailedPolls(watches, reports, name, n)
    ensures SubmittedBy(watches, reports[..m], name, n) == SubmittedBy(watches, reports, name, n)
  {
    if n > 0 {
      FoldPrefix(watches, reports, name, m, n - 1);
    }
  }

  /** Over a whole poll each label counts the failed polls of its watches, and the submissions they reported. */
  lemma {:induction false} PollsMoveCounters(counters: Counters, watches: seq<WatchConfig>, current: u32, cap: u32,
                                             terms: Terms, polls: seq<WatchPoll>,
                                             reports: seq<Result<PollReport, PollError>>, name: string)
    requires FirstPolled(watches, current, cap, terms, polls, reports)
    ensures
      var after := AfterPolls(counters, watches, polls, reports);
      && Count(after.pollErrors, name) == Count(counters.pollErrors, name) + FailedPolls(watches, reports, name, |reports|)
      && Count(after.extensions, (name, SubmittedOutcome))
         == Count(counters.extensions, (name, SubmittedOutcome)) + SubmittedBy(watches, reports, name, |reports|)
    decreases |polls|
  {
    if polls != [] {
      hide Ended, AfterPoll;
      var n := |polls| - 1;
      PollsMoveCounters(counters, watches, current, cap, terms, polls[..n], reports[..n], name);
      FoldPrefix(watches, reports, name, n, n);
      WatchIsCounted(AfterPolls(counters, watches, polls[..n], reports[..n]), watches[n], current, cap, terms, polls[n],
                     reports[n], name);
    }
  }

  lemma WatchIsCounted(counters: Counters, watch: WatchConfig, current: u32, cap: u32, terms: Terms, poll: WatchPoll,
                       report: Result<PollReport, PollError>, name: string)
    requires Ended(watch, current, cap, terms, poll, report)
    ensures
      var after := AfterPoll(counters, watch, poll, report.Err?);
      && Count(after.pollErrors, name)
         == Count(counters.pollErrors, name) + (if watch.name == name && report.Err? then 1 else 0)
      && Count(after.extensions, (name, SubmittedOutcome)) == Count(counters.extensions, (name, SubmittedOutcome)) +
           (if watch.name == name && report.Ok? then report.value.submitted else 0)
  {
    WatchMovesCounters(counters, watch, current, cap, terms, poll, report);
    hide Polled, FetchedAs, RetriesIn, Tally;
    if report.Ok? {
      PollIsCounted(counters.extensions, watch, current, cap, terms, poll, report.value);
    }
  }
}
