// The lease protocol on sync_runs rows: start, heartbeat, completion, and recovery of abandoned
// runs, which decides on an unlocked snapshot and applies the decision by compare-and-swap.
module SyncLeases {
  import opened Prelude
  import opened CatalogTables

  // The identity of a store: its process, its host and how long a silent lease is trusted.
  datatype Host = Host(pid: nat, hostname: string, abandonedAfterMs: nat)

  // What the operating system answers: which processes of this host are alive, and the lifetime
  // identity of those it can read.
  datatype Probe = Probe(alive: set<nat>, identities: map<nat, string>)

  // The columns a recovery snapshot reads.
  datatype Lease = Lease(startedAt: int, heartbeatAt: Option<int>, ownerToken: Option<OwnerToken>,
                         ownerPid: Option<nat>, ownerHostname: Option<string>)

  datatype CompletionInput = CompletionInput(completedAt: int, status: RunStatus, totals: RunTotals,
                                             errorSummary: Option<string>)

  datatype RunsOutcome = RunsOutcome(runs: map<nat, SyncRun>, owned: map<nat, OwnerToken>, error: Option<CatalogError>)

  const RECOVERY_SUMMARY := "Synchronization interrupted: owner lease expired or process is no longer active"

  function LeaseOf(run: SyncRun): Lease {
    Lease(run.startedAt, run.heartbeatAt, run.ownerToken, run.ownerPid, run.ownerHostname)
  }

  datatype Identity = SameProcess | OtherProcess | Unknown

  function CompareIdentity(recorded: Option<string>, pid: nat, probe: Probe): Identity {
    if recorded.None? || recorded.value == "" || pid !in probe.identities then Unknown
    else if probe.identities[pid] == recorded.value then SameProcess else OtherProcess
  }

  predicate IsAbandoned(lease: Lease, host: Host, probe: Probe, now: int) {
    var lastHeartbeat := if lease.heartbeatAt.Some? then lease.heartbeatAt.value else lease.startedAt;
    var leaseExpired := now - lastHeartbeat > host.abandonedAfterMs;
    if lease.ownerPid.Some? && lease.ownerHostname == Some(host.hostname) then
      if lease.ownerPid.value !in probe.alive then true
      else
        var recorded := if lease.ownerToken.Some? then lease.ownerToken.value.processIdentity else None;
        match CompareIdentity(recorded, lease.ownerPid.value, probe)
        case SameProcess => false
        case OtherProcess => true
        case Unknown => leaseExpired
    else leaseExpired
  }

  // The rows a store would recover: live, not held by itself, and judged abandoned.
  function AbandonedLeases(runs: map<nat, SyncRun>, owned: map<nat, OwnerToken>, host: Host,
                           probe: Probe, now: int): map<nat, Lease>
  {
    map r | r in runs && IsLive(runs[r])
            && !(r in owned && runs[r].ownerToken == Some(owned[r]))
            && IsAbandoned(LeaseOf(runs[r]), host, probe, now) :: LeaseOf(runs[r])
  }

  // The predicate of the compare-and-swap.
  predicate StillAsSnapshot(run: SyncRun, lease: Lease) {
    IsLive(run) && LeaseOf(run) == lease
  }

  function RecoveredRun(run: SyncRun, now: int): SyncRun {
    run.(completedAt := Some(now), status := Failed, errorSummary := Some(RECOVERY_SUMMARY),
         heartbeatAt := Some(now), ownerToken := None, ownerPid := None, ownerHostname := None)
  }

  function RecoverRuns(runs: map<nat, SyncRun>, candidates: map<nat, Lease>, now: int): map<nat, SyncRun> {
    map r | r in runs ::
      if r in candidates && StillAsSnapshot(runs[r], candidates[r]) then RecoveredRun(runs[r], now) else runs[r]
  }

  function RecoverableRuns(runs: map<nat, SyncRun>, candidates: map<nat, Lease>): set<nat> {
    set r | r in runs && r in candidates && StillAsSnapshot(runs[r], candidates[r])
  }

  // A run over all sources overlaps every run; otherwise runs overlap on the same source.
  predicate ScopesOverlap(a: Option<nat>, b: Option<nat>) {
    a.None? || b.None? || a == b
  }

  predicate LiveExecution(run: SyncRun) {
    run.kind.Execution? && IsLive(run)
  }

  // The insert trigger's test.
  predicate ScopeTaken(runs: map<nat, SyncRun>, sourceId: Option<nat>) {
    exists r :: r in runs && LiveExecution(runs[r]) && ScopesOverlap(sourceId, runs[r].sourceId)
  }

  function StartedRun(sourceId: Option<nat>, kind: RunKind, startedAt: int, token: OwnerToken, host: Host): SyncRun {
    SyncRun(sourceId, kind, startedAt, None, Running, RunTotals(0, 0, 0, 0, 0), None,
            Some(token), Some(host.pid), Some(host.hostname), Some(startedAt))
  }

  ghost function InsertRun(runs: map<nat, SyncRun>, owned: map<nat, OwnerToken>, sources: set<nat>,
                           sourceId: Option<nat>, kind: RunKind, startedAt: int, token: OwnerToken, host: Host): RunsOutcome
  {
    if kind.Execution? && ScopeTaken(runs, sourceId) then RunsOutcome(runs, owned, Some(RunAlreadyRunning))
    else if sourceId.Some? && sourceId.value !in sources then RunsOutcome(runs, owned, Some(ConstraintViolation))
    else
      var r := NextRowId(runs.Keys);
      RunsOutcome(runs[r := StartedRun(sourceId, kind, startedAt, token, host)], owned[r := token], None)
  }

  function CompletedRun(run: SyncRun, input: CompletionInput): SyncRun {
    run.(completedAt := Some(input.completedAt), status := input.status, totals := input.totals,
         errorSummary := input.errorSummary, heartbeatAt := Some(input.completedAt),
         ownerToken := None, ownerPid := None, ownerHostname := None)
  }

  // The error complete() reports before it writes, if any.
  function CompletionError(runs: map<nat, SyncRun>, owned: map<nat, OwnerToken>, runId: nat, input: CompletionInput): Option<CatalogError> {
    if runId !in runs then Some(RunNotFound)
    else if !IsLive(runs[runId]) then Some(if runId in owned then OwnershipLost else RunAlreadyCompleted)
    else if runId !in owned || runs[runId].ownerToken != Some(owned[runId]) then Some(OwnershipLost)
    else if input.completedAt < runs[runId].startedAt then Some(CompletionPrecedesStart)
    else None
  }

  // After a failed completion the token is dropped unless the row still carries it.
  function CompleteRun(runs: map<nat, SyncRun>, owned: map<nat, OwnerToken>, runId: nat, input: CompletionInput): RunsOutcome {
    var error := CompletionError(runs, owned, runId, input);
    if error.None? then RunsOutcome(runs[runId := CompletedRun(runs[runId], input)], owned - {runId}, None)
    else if runId in owned && !HoldsLease(runs, runId, owned[runId]) then RunsOutcome(runs, owned - {runId}, error)
    else RunsOutcome(runs, owned, error)
  }

  function TouchHeartbeat(runs: map<nat, SyncRun>, runId: nat, token: OwnerToken, at: int): map<nat, SyncRun> {
    if HoldsLease(runs, runId, token) then runs[runId := runs[runId].(heartbeatAt := Some(at))] else runs
  }

  /*** Who is given up ***/

  // The run's process number is free, or another process has it.
  predicate SeenDead(run: SyncRun, probe: Probe) {
    && run.ownerPid.Some?
    && (|| run.ownerPid.value !in probe.alive
        || (run.ownerToken.Some? && run.ownerToken.value.processIdentity.Some? && run.ownerToken.value.processIdentity.value != ""
            && run.ownerPid.value in probe.identities
            && probe.identities[run.ownerPid.value] != run.ownerToken.value.processIdentity.value))
  }

  // The owner's process, on this host, is alive and still the one that started the run.
  predicate SeenSame(run: SyncRun, host: Host, probe: Probe) {
    && run.ownerHostname == Some(host.hostname) && run.ownerPid.Some? && run.ownerPid.value in probe.alive
    && run.ownerToken.Some? && run.ownerToken.value.processIdentity.Some? && run.ownerToken.value.processIdentity.value != ""
    && run.ownerPid.value in probe.identities
    && probe.identities[run.ownerPid.value] == run.ownerToken.value.processIdentity.value
  }

  // The last sign of life: the heartbeat, or the start while there is none.
  function LastHeard(run: SyncRun): int {
    match run.heartbeatAt
    case Some(at) => at
    case None => run.startedAt
  }

  // The owner was seen dead on its own host; or it was not seen alive, and has been silent too long.
  predicate GivenUp(run: SyncRun, host: Host, probe: Probe, now: int) {
    || (run.ownerHostname == Some(host.hostname) && SeenDead(run, probe))
    || (!SeenSame(run, host, probe) && now > LastHeard(run) + host.abandonedAfterMs)
  }

  // Whom a store looking at the table may end: running, not its own, and given up.
  predicate Forsaken(run: SyncRun, own: Option<OwnerToken>, host: Host, probe: Probe, now: int) {
    && run.status.Running? && run.completedAt.None? && (own.Some? ==> run.ownerToken != own)
    && GivenUp(run, host, probe, now)
  }

  function TokenOf(owned: map<nat, OwnerToken>, r: nat): Option<OwnerToken> {
    if r in owned then Some(owned[r]) else None
  }

  // The row of a run that was ended on its owner's behalf.
  predicate EndedBy(before: SyncRun, after: SyncRun, now: int) {
    after == SyncRun(before.sourceId, before.kind, before.startedAt, Some(now), Failed, before.totals,
                     Some("Synchronization interrupted: owner lease expired or process is no longer active"),
                     None, None, None, Some(now))
  }

  lemma AbandonedExactly(runs: map<nat, SyncRun>, owned: map<nat, OwnerToken>, host: Host, probe: Probe, now: int, r: nat)
    ensures r in AbandonedLeases(runs, owned, host, probe, now) <==>
              r in runs && Forsaken(runs[r], TokenOf(owned, r), host, probe, now)
  {
  }

  // What a recovery with nobody in between leaves of the rows there were.
  predicate OnlyForsakenEnded(before: map<nat, SyncRun>, after: map<nat, SyncRun>, owned: map<nat, OwnerToken>, host: Host,
                              probe: Probe, now: int)
  {
    forall r :: r in before ==>
      r in after && if Forsaken(before[r], TokenOf(owned, r), host, probe, now) then EndedBy(before[r], after[r], now) else after[r] == before[r]
  }

  lemma RecoveredExactly(runs: map<nat, SyncRun>, owned: map<nat, OwnerToken>, host: Host, probe: Probe, now: int)
    ensures var after := RecoverRuns(runs, AbandonedLeases(runs, owned, host, probe, now), now);
            after.Keys == runs.Keys && OnlyForsakenEnded(runs, after, owned, host, probe, now)
  {
    hide Forsaken, IsAbandoned;
    forall r | r in runs
      ensures var after := RecoverRuns(runs, AbandonedLeases(runs, owned, host, probe, now), now);
              if Forsaken(runs[r], TokenOf(owned, r), host, probe, now) then EndedBy(runs[r], after[r], now) else after[r] == runs[r]
    {
      AbandonedExactly(runs, owned, host, probe, now, r);
    }
  }

  // A start is refused exactly for a running execution over all sources, or the same one, that the
  // recovery before it leaves running.
  predicate Blocked(runs: map<nat, SyncRun>, owned: map<nat, OwnerToken>, sourceId: Option<nat>, host: Host, probe: Probe, now: int) {
    exists r :: r in runs && runs[r].kind.Execution? && runs[r].status.Running? && runs[r].completedAt.None?
                && (runs[r].sourceId.None? || sourceId.None? || runs[r].sourceId.value == sourceId.value)
                && !Forsaken(runs[r], TokenOf(owned, r), host, probe, now)
  }

  lemma BlockedExactly(runs: map<nat, SyncRun>, after: map<nat, SyncRun>, owned: map<nat, OwnerToken>, sourceId: Option<nat>, host: Host,
                       probe: Probe, now: int)
    requires after.Keys == runs.Keys && OnlyForsakenEnded(runs, after, owned, host, probe, now)
    ensures ScopeTaken(after, sourceId) <==> Blocked(runs, owned, sourceId, host, probe, now)
  {
    hide Forsaken;
    if ScopeTaken(after, sourceId) {
      var r :| r in after && LiveExecution(after[r]) && ScopesOverlap(sourceId, after[r].sourceId);
      assert after[r] == runs[r];
    }
    if Blocked(runs, owned, sourceId, host, probe, now) {
      var r :| r in runs && runs[r].kind.Execution? && runs[r].status.Running? && runs[r].completedAt.None?
               && (runs[r].sourceId.None? || sourceId.None? || runs[r].sourceId.value == sourceId.value)
               && !Forsaken(runs[r], TokenOf(owned, r), host, probe, now);
      assert after[r] == runs[r];
    }
  }

  // What a start leaves, in terms of the rows before its recovery.
  lemma StartedExactly(runs: map<nat, SyncRun>, owned: map<nat, OwnerToken>, sources: set<nat>, sourceId: Option<nat>, kind: RunKind,
                       startedAt: int, token: OwnerToken, host: Host, probe: Probe, now: int)
    ensures var recovered := RecoverRuns(runs, AbandonedLeases(runs, owned, host, probe, now), now);
            var out := InsertRun(recovered, owned, sources, sourceId, kind, startedAt, token, host);
            var r := NextRowId(runs.Keys);
            && OnlyForsakenEnded(runs, out.runs, owned, host, probe, now)
            && (out.error == Some(RunAlreadyRunning) <==> kind.Execution? && Blocked(runs, owned, sourceId, host, probe, now))
            && (out.error.None? <==> !(kind.Execution? && Blocked(runs, owned, sourceId, host, probe, now))
                                     && (sourceId.None? || sourceId.value in sources))
            && out.runs.Keys == (if out.error.None? then runs.Keys + {r} else runs.Keys)
            && out.owned == (if out.error.None? then owned[r := token] else owned)
            && (out.error.None? ==> BeganAs(out.runs[r], sourceId, kind, startedAt, token, host))
  {
    hide Forsaken, IsAbandoned, ScopeTaken, Blocked, AbandonedLeases, RecoverRuns, IsLive;
    var recovered := RecoverRuns(runs, AbandonedLeases(runs, owned, host, probe, now), now);
    RecoveredExactly(runs, owned, host, probe, now);
    BlockedExactly(runs, recovered, owned, sourceId, host, probe, now);
  }

  // A run that has just begun, leased to the store and heard of at its start.
  predicate BeganAs(run: SyncRun, sourceId: Option<nat>, kind: RunKind, startedAt: int, token: OwnerToken, host: Host) {
    && run.sourceId == sourceId && run.kind == kind && run.startedAt == startedAt && run.status.Running? && run.completedAt.None?
    && run.ownerToken == Some(token) && run.ownerPid == Some(host.pid) && run.ownerHostname == Some(host.hostname)
    && run.heartbeatAt == Some(startedAt) && run.errorSummary.None?
  }
}
