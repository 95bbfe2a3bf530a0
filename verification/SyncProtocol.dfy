// Any number of stores sharing one sync_runs table, their steps interleaved in any order.
module SyncProtocol {
  import opened Prelude
  import opened CatalogTables
  import opened SyncLeases

  // A recovery that has read its snapshot and not yet applied it.
  datatype Scan = Scan(candidates: map<nat, Lease>, now: int)

  // `failed` is the run whose completion has failed and whose token is still to be checked.
  datatype Store = Store(host: Host, owned: map<nat, OwnerToken>, scan: Option<Scan>, failed: Option<nat>)

  // `issued` holds every token ever handed out; `starter` the store that inserted each run.
  datatype World = World(runs: map<nat, SyncRun>, sources: set<nat>, stores: map<nat, Store>,
                         issued: set<OwnerToken>, starter: map<nat, nat>)

  datatype Step =
    | Open(store: nat, host: Host)
    | Snapshot(store: nat, probe: Probe, now: int)
    | Recover(store: nat)
    | Start(store: nat, sourceId: Option<nat>, kind: RunKind, startedAt: int, token: OwnerToken)
    // A document transaction's renewal; the transaction may still roll back afterwards.
    | Renew(store: nat, runId: nat, at: int, commits: bool)
    // A completion that fails writes nothing; whether its token still fits is read afterwards.
    | Complete(store: nat, runId: nat, input: CompletionInput)
    | Reconcile(store: nat)

  function WithStore(w: World, s: nat, store: Store): World {
    w.(stores := w.stores[s := store])
  }

  predicate Idle(store: Store) {
    store.scan.None? && store.failed.None?
  }

  // A store is single-threaded: between its snapshot and its swap, and between a failed completion
  // and the check of its token, it takes no other step.
  predicate Enabled(w: World, step: Step) {
    match step
    case Open(s, _) => s !in w.stores
    case Recover(s) => s in w.stores && w.stores[s].scan.Some?
    case Start(s, _, _, _, token) => s in w.stores && Idle(w.stores[s]) && token !in w.issued
    case Complete(s, _, input) => s in w.stores && Idle(w.stores[s]) && !input.status.Running?
    case Reconcile(s) => s in w.stores && w.stores[s].failed.Some?
    case _ => step.store in w.stores && Idle(w.stores[step.store])
  }

  ghost function Next(w: World, step: Step): World
    requires Enabled(w, step)
  {
    match step
    case Open(s, host) => WithStore(w, s, Store(host, map[], None, None))
    case Snapshot(s, probe, now) =>
      var store := w.stores[s];
      WithStore(w, s, store.(scan := Some(Scan(AbandonedLeases(w.runs, store.owned, store.host, probe, now), now))))
    case Recover(s) =>
      var store := w.stores[s];
      WithStore(w, s, store.(scan := None)).(runs := RecoverRuns(w.runs, store.scan.value.candidates, store.scan.value.now))
    case Start(s, sourceId, kind, startedAt, token) =>
      var store := w.stores[s];
      var out := InsertRun(w.runs, store.owned, w.sources, sourceId, kind, startedAt, token, store.host);
      WithStore(w, s, store.(owned := out.owned)).(
        runs := out.runs, issued := w.issued + {token},
        starter := if out.error.None? then w.starter[NextRowId(w.runs.Keys) := s] else w.starter)
    case Renew(s, r, at, commits) =>
      var store := w.stores[s];
      if r !in store.owned then w
      else if !HoldsLease(w.runs, r, store.owned[r]) then WithStore(w, s, store.(owned := store.owned - {r}))
      else if commits then w.(runs := TouchHeartbeat(w.runs, r, store.owned[r], at))
      else w
    case Complete(s, r, input) =>
      var store := w.stores[s];
      if CompletionError(w.runs, store.owned, r, input).None? then
        WithStore(w, s, store.(owned := store.owned - {r})).(runs := w.runs[r := CompletedRun(w.runs[r], input)])
      else WithStore(w, s, store.(failed := Some(r)))
    case Reconcile(s) =>
      var store := w.stores[s];
      var r := store.failed.value;
      var lost := r in store.owned && !HoldsLease(w.runs, r, store.owned[r]);
      WithStore(w, s, store.(owned := if lost then store.owned - {r} else store.owned, failed := None))
  }

  ghost predicate Run(w: World, steps: seq<Step>, last: World)
    decreases |steps|
  {
    if steps == [] then last == w
    else Enabled(w, steps[0]) && Run(Next(w, steps[0]), steps[1..], last)
  }

  /*** Terminal rows ***/

  lemma StepKeepsTerminalRow(w: World, step: Step, r: nat)
    requires Enabled(w, step)
    requires r in w.runs && !IsLive(w.runs[r])
    ensures r in Next(w, step).runs && Next(w, step).runs[r] == w.runs[r]
  {
  }

  // A run that has ended never changes again, whatever any store does.
  lemma {:induction false} TerminalForever(w: World, steps: seq<Step>, last: World, r: nat)
    requires Run(w, steps, last)
    requires r in w.runs && !IsLive(w.runs[r])
    ensures r in last.runs && last.runs[r] == w.runs[r]
    decreases |steps|
  {
    if steps != [] {
      StepKeepsTerminalRow(w, steps[0], r);
      TerminalForever(Next(w, steps[0]), steps[1..], last, r);
    }
  }

  // Which steps may change a live row: the holder's renewal or completion, or a swap whose
  // snapshot still describes it.
  predicate EntitledToChange(w: World, step: Step, r: nat)
    requires Enabled(w, step) && r in w.runs
  {
    match step
    case Recover(s) => r in w.stores[s].scan.value.candidates
                       && StillAsSnapshot(w.runs[r], w.stores[s].scan.value.candidates[r])
    case Renew(s, id, _, _) => id == r && r in w.stores[s].owned && HoldsLease(w.runs, r, w.stores[s].owned[r])
    case Complete(s, id, _) => id == r && r in w.stores[s].owned && HoldsLease(w.runs, r, w.stores[s].owned[r])
    case _ => false
  }

  lemma OnlyEntitledStepsChangeRow(w: World, step: Step, r: nat)
    requires Enabled(w, step) && r in w.runs
    ensures r in Next(w, step).runs
    ensures Next(w, step).runs[r] != w.runs[r] ==> EntitledToChange(w, step, r)
    ensures step.Recover? && EntitledToChange(w, step, r) ==>
              Next(w, step).runs[r] == RecoveredRun(w.runs[r], w.stores[step.store].scan.value.now)
  {
  }

  /*** Compare-and-swap ***/

  // Heartbeats of run r never go backwards along the steps.
  ghost predicate HeartbeatsAdvance(w: World, steps: seq<Step>, r: nat)
    decreases |steps|
  {
    steps != [] ==>
      && Enabled(w, steps[0])
      && (steps[0].Renew? && steps[0].runId == r && r in w.runs && w.runs[r].heartbeatAt.Some? ==>
            steps[0].at >= w.runs[r].heartbeatAt.value)
      && HeartbeatsAdvance(Next(w, steps[0]), steps[1..], r)
  }

  // What can have become of a live row: nothing, a later heartbeat and nothing else, or its end.
  predicate SameOrLaterOrEnded(before: SyncRun, after: SyncRun) {
    || !IsLive(after)
    || after == before
    || (after == before.(heartbeatAt := after.heartbeatAt) && after.heartbeatAt.Some?
        && (before.heartbeatAt.Some? ==> after.heartbeatAt.value > before.heartbeatAt.value))
  }

  lemma {:induction false} LiveRowHistory(w: World, steps: seq<Step>, last: World, r: nat)
    requires Run(w, steps, last) && HeartbeatsAdvance(w, steps, r)
    requires r in w.runs && IsLive(w.runs[r])
    ensures r in last.runs && SameOrLaterOrEnded(w.runs[r], last.runs[r])
    decreases |steps|
  {
    if steps != [] {
      var w1 := Next(w, steps[0]);
      OnlyEntitledStepsChangeRow(w, steps[0], r);
      assert SameOrLaterOrEnded(w.runs[r], w1.runs[r]);
      if IsLive(w1.runs[r]) {
        LiveRowHistory(w1, steps[1..], last, r);
      } else {
        TerminalForever(w1, steps[1..], last, r);
      }
    }
  }

  // The row stays as it is in every world along the steps.
  ghost predicate Untouched(w: World, steps: seq<Step>, r: nat, row: SyncRun)
    decreases |steps|
  {
    && r in w.runs && w.runs[r] == row
    && (steps != [] && Enabled(w, steps[0]) ==> Untouched(Next(w, steps[0]), steps[1..], r, row))
  }

  // A row is what it was exactly if nothing on the way changed it: no change is ever undone.
  lemma {:induction false} ChangesAreNotUndone(w: World, steps: seq<Step>, last: World, r: nat)
    requires Run(w, steps, last) && HeartbeatsAdvance(w, steps, r)
    requires r in w.runs && IsLive(w.runs[r])
    ensures r in last.runs && (last.runs[r] == w.runs[r] <==> Untouched(w, steps, r, w.runs[r]))
    decreases |steps|
  {
    LiveRowHistory(w, steps, last, r);
    if steps != [] {
      var w1 := Next(w, steps[0]);
      OnlyEntitledStepsChangeRow(w, steps[0], r);
      if w1.runs[r] == w.runs[r] {
        ChangesAreNotUndone(w1, steps[1..], last, r);
      } else if IsLive(w1.runs[r]) {
        LiveRowHistory(w1, steps[1..], last, r);
      } else {
        TerminalForever(w1, steps[1..], last, r);
      }
    }
  }

  // The swap looks only at the row it finds: equal to the snapshot, it is ended, and otherwise left alone.
  lemma SwapComparesRows(w: World, step: Step, steps: seq<Step>, last: World, r: nat)
    requires step.Snapshot? && Enabled(w, step) && Run(Next(w, step), steps, last)
    requires forall i :: 0 <= i < |steps| ==> steps[i].store != step.store
    requires r in w.runs && r in Next(w, step).stores[step.store].scan.value.candidates
    requires r in last.runs && (last.runs[r] == w.runs[r] || !IsLive(last.runs[r]) || LeaseOf(last.runs[r]) != LeaseOf(w.runs[r]))
    ensures Enabled(last, Recover(step.store))
    ensures var after := Next(last, Recover(step.store)).runs;
            && (last.runs[r] != w.runs[r] ==> after[r] == last.runs[r])
            && (last.runs[r] == w.runs[r] ==>
                  && after[r].status.Failed? && after[r].completedAt == Some(step.now) && after[r].ownerToken.None?
                  && after[r].errorSummary.Some? && after[r].totals == w.runs[r].totals && after[r].startedAt == w.runs[r].startedAt)
  {
    OthersKeepStore(Next(w, step), steps, last, step.store);
  }

  // Between a store's snapshot and its swap, any change at all to a candidate row (a renewal to a
  // later heartbeat, a completion, another store's recovery) makes the swap leave that row alone,
  // whatever follows the change; and a row nobody changed is recovered.
  lemma SwapAppliesExactlyToUnchangedRows(w: World, step: Step, steps: seq<Step>, last: World, r: nat)
    requires step.Snapshot? && Enabled(w, step)
    requires Run(Next(w, step), steps, last) && HeartbeatsAdvance(Next(w, step), steps, r)
    requires forall i :: 0 <= i < |steps| ==> steps[i].store != step.store
    requires r in w.runs && r in Next(w, step).stores[step.store].scan.value.candidates
    ensures Enabled(last, Recover(step.store)) && r in last.runs
    ensures var after := Next(last, Recover(step.store)).runs;
            if Untouched(Next(w, step), steps, r, w.runs[r])
            then && after[r].status.Failed? && after[r].completedAt == Some(step.now) && after[r].ownerToken.None?
                 && after[r].errorSummary.Some? && after[r].totals == w.runs[r].totals && after[r].startedAt == w.runs[r].startedAt
            else after[r] == last.runs[r]
  {
    var w1 := Next(w, step);
    ChangesAreNotUndone(w1, steps, last, r);
    LiveRowHistory(w1, steps, last, r);
    SwapComparesRows(w, step, steps, last, r);
  }

  lemma {:induction false} OthersKeepStore(w: World, steps: seq<Step>, last: World, s: nat)
    requires Run(w, steps, last) && s in w.stores
    requires forall i :: 0 <= i < |steps| ==> steps[i].store != s
    ensures s in last.stores && last.stores[s] == w.stores[s]
    decreases |steps|
  {
    if steps != [] {
      OthersKeepStore(Next(w, steps[0]), steps[1..], last, s);
    }
  }

  /*** Ownership ***/

  predicate TokensIssued(w: World) {
    && (forall r | r in w.runs && w.runs[r].ownerToken.Some? :: w.runs[r].ownerToken.value in w.issued)
    && (forall s, r | s in w.stores && r in w.stores[s].owned :: w.stores[s].owned[r] in w.issued)
  }

  // A store holds tokens only of runs it started, and a live row carries its holder's token.
  predicate OwnersAreStarters(w: World) {
    && (forall s, r | s in w.stores && r in w.stores[s].owned ::
          && r in w.runs && r in w.starter && w.starter[r] == s
          && (IsLive(w.runs[r]) ==> w.runs[r].ownerToken == Some(w.stores[s].owned[r])))
    && (forall r | r in w.starter :: r in w.runs && w.starter[r] in w.stores)
  }

  // The store that started a live run can always still write to it.
  predicate StartersHoldTheirRuns(w: World) {
    forall r | r in w.starter && r in w.runs && IsLive(w.runs[r]) ::
      w.starter[r] in w.stores && r in w.stores[w.starter[r]].owned && HoldsLease(w.runs, r, w.stores[w.starter[r]].owned[r])
  }

  // A pending recovery never targets a run its own store holds.
  predicate ScansSpareOwnRuns(w: World) {
    forall s, r | s in w.stores && w.stores[s].scan.Some? && r in w.stores[s].scan.value.candidates ::
      r in w.stores[s].owned ==> w.stores[s].scan.value.candidates[r].ownerToken != Some(w.stores[s].owned[r])
  }

  predicate ScopesExclusive(runs: map<nat, SyncRun>) {
    forall a, b | a in runs && b in runs && a != b && LiveExecution(runs[a]) && LiveExecution(runs[b]) ::
      !ScopesOverlap(runs[a].sourceId, runs[b].sourceId)
  }

  ghost predicate ProtocolInvariant(w: World)
  {
    TokensIssued(w) && OwnersAreStarters(w) && StartersHoldTheirRuns(w) && ScansSpareOwnRuns(w) && ScopesExclusive(w.runs)
  }

  // No store is open yet; the table holds whatever earlier processes left.
  predicate Initial(w: World) {
    && w.stores == map[] && w.starter == map[] && ScopesExclusive(w.runs)
    && (forall r | r in w.runs && w.runs[r].ownerToken.Some? :: w.runs[r].ownerToken.value in w.issued)
  }

  lemma StepKeepsTokens(w: World, step: Step)
    requires TokensIssued(w) && Enabled(w, step)
    ensures TokensIssued(Next(w, step))
  {
  }

  lemma StartersAreKnown(w: World, step: Step, r: nat)
    requires OwnersAreStarters(w) && Enabled(w, step) && r in Next(w, step).starter
    ensures r in Next(w, step).runs && Next(w, step).starter[r] in Next(w, step).stores
  {
  }

  // One token a store holds after the step: it held it before, or the step has just started the run.
  lemma OwnerStarted(w: World, step: Step, s: nat, r: nat)
    requires OwnersAreStarters(w) && Enabled(w, step)
    requires s in Next(w, step).stores && r in Next(w, step).stores[s].owned
    ensures var n := Next(w, step);
            && r in n.runs && r in n.starter && n.starter[r] == s
            && (IsLive(n.runs[r]) ==> n.runs[r].ownerToken == Some(n.stores[s].owned[r]))
  {
    if s in w.stores && r in w.stores[s].owned {
      assert r in w.runs && w.starter[r] == s;
      OnlyEntitledStepsChangeRow(w, step, r);
    }
  }

  lemma StepKeepsOwners(w: World, step: Step)
    requires OwnersAreStarters(w) && Enabled(w, step)
    ensures OwnersAreStarters(Next(w, step))
  {
    hide Enabled, Next, IsLive;
    var n := Next(w, step);
    forall r | r in n.starter
      ensures r in n.runs && n.starter[r] in n.stores
    {
      StartersAreKnown(w, step, r);
    }
    forall s, r | s in n.stores && r in n.stores[s].owned
      ensures r in n.runs && r in n.starter && n.starter[r] == s
      ensures IsLive(n.runs[r]) ==> n.runs[r].ownerToken == Some(n.stores[s].owned[r])
    {
      OwnerStarted(w, step, s, r);
    }
  }

  // One run: a new one is held by the store that starts it, and no step takes a live run's token away.
  lemma StarterHolds(w: World, step: Step, r: nat)
    requires OwnersAreStarters(w) && StartersHoldTheirRuns(w) && ScansSpareOwnRuns(w) && Enabled(w, step)
    requires r in Next(w, step).starter && r in Next(w, step).runs && IsLive(Next(w, step).runs[r])
    ensures var n := Next(w, step);
            n.starter[r] in n.stores && r in n.stores[n.starter[r]].owned && HoldsLease(n.runs, r, n.stores[n.starter[r]].owned[r])
  {
    if r in w.runs && r in w.starter {
      if !IsLive(w.runs[r]) {
        StepKeepsTerminalRow(w, step, r);
        assert false;
      }
      HeldRunStays(w, step, r);
    } else {
      NewRunIsHeld(w, step, r);
    }
  }

  lemma HeldRunStays(w: World, step: Step, r: nat)
    requires StartersHoldTheirRuns(w) && ScansSpareOwnRuns(w) && Enabled(w, step)
    requires r in w.runs && r in w.starter && IsLive(w.runs[r]) && r in Next(w, step).runs && IsLive(Next(w, step).runs[r])
    ensures var n := Next(w, step); var s := w.starter[r];
            && r in n.starter && n.starter[r] == s
            && s in n.stores && r in n.stores[s].owned && HoldsLease(n.runs, r, n.stores[s].owned[r])
  {
  }

  lemma NewRunIsHeld(w: World, step: Step, r: nat)
    requires OwnersAreStarters(w) && Enabled(w, step)
    requires !(r in w.runs && r in w.starter) && r in Next(w, step).starter && r in Next(w, step).runs && IsLive(Next(w, step).runs[r])
    ensures var n := Next(w, step);
            n.starter[r] in n.stores && r in n.stores[n.starter[r]].owned && HoldsLease(n.runs, r, n.stores[n.starter[r]].owned[r])
  {
  }

  lemma StepKeepsStarters(w: World, step: Step)
    requires OwnersAreStarters(w) && StartersHoldTheirRuns(w) && ScansSpareOwnRuns(w) && Enabled(w, step)
    ensures StartersHoldTheirRuns(Next(w, step))
  {
    hide OwnersAreStarters, ScansSpareOwnRuns, Enabled, Next, HoldsLease;
    var n := Next(w, step);
    forall r | r in n.starter && r in n.runs && IsLive(n.runs[r])
      ensures n.starter[r] in n.stores && r in n.stores[n.starter[r]].owned && HoldsLease(n.runs, r, n.stores[n.starter[r]].owned[r])
    {
      StarterHolds(w, step, r);
    }
  }

  lemma StepKeepsScans(w: World, step: Step)
    requires TokensIssued(w) && ScansSpareOwnRuns(w) && Enabled(w, step)
    ensures ScansSpareOwnRuns(Next(w, step))
  {
  }

  // A live execution after the step was one before, or was started over a free scope.
  lemma LiveExecutionsAfter(w: World, step: Step, r: nat)
    requires Enabled(w, step) && r in Next(w, step).runs && LiveExecution(Next(w, step).runs[r])
    ensures var run := Next(w, step).runs[r];
            if r in w.runs then LiveExecution(w.runs[r]) && w.runs[r].sourceId == run.sourceId
            else !ScopeTaken(w.runs, run.sourceId) && r == NextRowId(w.runs.Keys)
  {
  }

  lemma StepKeepsScopes(w: World, step: Step)
    requires ScopesExclusive(w.runs) && Enabled(w, step)
    ensures ScopesExclusive(Next(w, step).runs)
  {
    hide Enabled, Next, LiveExecution;
    var n := Next(w, step);
    forall a, b | a in n.runs && b in n.runs && a != b && LiveExecution(n.runs[a]) && LiveExecution(n.runs[b])
      ensures !ScopesOverlap(n.runs[a].sourceId, n.runs[b].sourceId)
    {
      LiveExecutionsAfter(w, step, a);
      LiveExecutionsAfter(w, step, b);
    }
  }

  lemma StepKeepsInvariant(w: World, step: Step)
    requires ProtocolInvariant(w) && Enabled(w, step)
    ensures ProtocolInvariant(Next(w, step))
  {
    StepKeepsTokens(w, step);
    StepKeepsOwners(w, step);
    StepKeepsStarters(w, step);
    StepKeepsScans(w, step);
    StepKeepsScopes(w, step);
  }

  lemma {:induction false} RunsKeepInvariant(w: World, steps: seq<Step>, last: World)
    requires ProtocolInvariant(w) && Run(w, steps, last)
    ensures ProtocolInvariant(last)
    decreases |steps|
  {
    if steps != [] {
      StepKeepsInvariant(w, steps[0]);
      RunsKeepInvariant(Next(w, steps[0]), steps[1..], last);
    }
  }

  // Two executions running at once are over two different sources; one over all sources runs alone.
  predicate OneExecutionASource(runs: map<nat, SyncRun>) {
    forall a, b | a in runs && b in runs && a != b && runs[a].kind.Execution? && runs[b].kind.Execution? ::
      (|| !runs[a].status.Running? || runs[a].completedAt.Some? || !runs[b].status.Running? || runs[b].completedAt.Some?
       || (runs[a].sourceId.Some? && runs[b].sourceId.Some? && runs[a].sourceId.value != runs[b].sourceId.value))
  }

  lemma {:induction false} ReachableWorldsAreSafe(w: World, steps: seq<Step>, last: World)
    requires Initial(w) && Run(w, steps, last)
    ensures ProtocolInvariant(last)
    ensures OneExecutionASource(last.runs)
  {
    RunsKeepInvariant(w, steps, last);
  }

  // Only the store that inserted a run renews or completes it.
  lemma OnlyTheStarterWrites(w: World, step: Step, r: nat)
    requires ProtocolInvariant(w) && Enabled(w, step) && r in w.runs
    requires Next(w, step).runs[r] != w.runs[r] && !step.Recover?
    ensures r in w.starter && w.starter[r] == step.store
  {
    OnlyEntitledStepsChangeRow(w, step, r);
  }

  // A store's own recovery never ends a run it still holds.
  lemma OwnRecoverySparesHeldRuns(w: World, s: nat, r: nat)
    requires ProtocolInvariant(w) && Enabled(w, Recover(s))
    requires r in w.stores[s].owned && HoldsLease(w.runs, r, w.stores[s].owned[r])
    ensures Next(w, Recover(s)).runs[r] == w.runs[r]
  {
    OnlyEntitledStepsChangeRow(w, Recover(s), r);
  }

  // Once a store's token no longer fits the row, no later step of anyone changes that run.
  lemma FencedForever(w: World, steps: seq<Step>, last: World, s: nat, r: nat)
    requires ProtocolInvariant(w) && Run(w, steps, last)
    requires s in w.stores && r in w.stores[s].owned && !HoldsLease(w.runs, r, w.stores[s].owned[r])
    ensures r in last.runs && last.runs[r] == w.runs[r]
  {
    TerminalForever(w, steps, last, r);
  }

  // How often run r goes from live to ended along the steps.
  ghost function Endings(w: World, steps: seq<Step>, r: nat): nat
    decreases |steps|
  {
    if steps == [] || !Enabled(w, steps[0]) then 0
    else
      var n := Next(w, steps[0]);
      (if r in w.runs && IsLive(w.runs[r]) && r in n.runs && !IsLive(n.runs[r]) then 1 else 0)
      + Endings(n, steps[1..], r)
  }

  lemma {:induction false} RunsEndAtMostOnce(w: World, steps: seq<Step>, r: nat)
    ensures Endings(w, steps, r) <= 1
    ensures r in w.runs && !IsLive(w.runs[r]) ==> Endings(w, steps, r) == 0
    decreases |steps|
  {
    if steps != [] && Enabled(w, steps[0]) {
      RunsEndAtMostOnce(Next(w, steps[0]), steps[1..], r);
      if r in w.runs && !IsLive(w.runs[r]) {
        StepKeepsTerminalRow(w, steps[0], r);
      }
    }
  }

  /*** What each step achieves ***/

  // Completion succeeds exactly for the holder of the lease and a time not before the start; it
  // records the outcome and gives the lease up. Otherwise nothing is written, and the token is
  // kept exactly if it still fits.
  lemma CompletionSucceedsExactly(runs: map<nat, SyncRun>, owned: map<nat, OwnerToken>, r: nat, input: CompletionInput)
    requires !input.status.Running?
    ensures var out := CompleteRun(runs, owned, r, input);
            && (out.error.None? <==>
                  && r in owned && r in runs && runs[r].status.Running? && runs[r].completedAt.None?
                  && runs[r].ownerToken == Some(owned[r]) && input.completedAt >= runs[r].startedAt)
            && (out.error.None? ==>
                  && out.runs.Keys == runs.Keys && r !in out.owned && !IsLive(out.runs[r])
                  && out.runs[r].status == input.status && out.runs[r].completedAt == Some(input.completedAt)
                  && out.runs[r].totals == input.totals && out.runs[r].errorSummary == input.errorSummary
                  && out.runs[r].startedAt == runs[r].startedAt && out.runs[r].ownerToken.None?
                  && out.runs[r].ownerPid.None? && out.runs[r].ownerHostname.None? && out.runs[r].heartbeatAt == Some(input.completedAt)
                  && forall o :: o in runs && o != r ==> out.runs[o] == runs[o])
            && (out.error.Some? ==>
                  out.runs == runs && (r in out.owned <==> r in owned && HoldsLease(runs, r, owned[r])))
  {
  }

  // With no other store between the two, a completion and the check of its token are one call.
  lemma CompletionInTwoSteps(w: World, step: Step)
    requires step.Complete? && Enabled(w, step)
    ensures var n := Next(w, step);
            var out := CompleteRun(w.runs, w.stores[step.store].owned, step.runId, step.input);
            && n.runs == out.runs && (out.error.Some? <==> Enabled(n, Reconcile(step.store)))
            && (if out.error.Some? then Next(n, Reconcile(step.store)).stores[step.store].owned else n.stores[step.store].owned) == out.owned
  {
  }

  // A start that succeeds gives the store a live run it may write to, over a scope no other live
  // execution overlaps.
  lemma StartLeasesTheRun(w: World, step: Step)
    requires step.Start? && ProtocolInvariant(w) && Enabled(w, step)
    ensures var n := Next(w, step);
            var r := NextRowId(w.runs.Keys);
            n.runs != w.runs ==>
              && r !in w.runs && HoldsLease(n.runs, r, step.token)
              && r in n.stores[step.store].owned && n.stores[step.store].owned[r] == step.token
              && BeganAs(n.runs[r], step.sourceId, step.kind, step.startedAt, step.token, w.stores[step.store].host)
              && (step.kind.Execution? ==>
                    forall o :: o in w.runs && LiveExecution(w.runs[o]) ==> !ScopesOverlap(step.sourceId, w.runs[o].sourceId))
  {
  }

  /*** Dead and living owners ***/

  // The row belongs to a process of the host, known by its number and its identity.
  predicate OwnedBy(run: SyncRun, hostname: string, pid: nat, identity: string) {
    && run.ownerHostname == Some(hostname) && run.ownerPid == Some(pid)
    && run.ownerToken.Some? && run.ownerToken.value.processIdentity == Some(identity)
  }

  predicate OnHost(w: World, s: nat, hostname: string) {
    s in w.stores && w.stores[s].host.hostname == hostname
  }

  // Along the steps every snapshot taken on the host sees the process alive, under its identity.
  ghost predicate SeenAlive(w: World, steps: seq<Step>, hostname: string, pid: nat, identity: string)
    decreases |steps|
  {
    steps != [] && Enabled(w, steps[0]) ==>
      && (steps[0].Snapshot? && OnHost(w, steps[0].store, hostname) ==>
            pid in steps[0].probe.alive && pid in steps[0].probe.identities && steps[0].probe.identities[pid] == identity)
      && SeenAlive(Next(w, steps[0]), steps[1..], hostname, pid, identity)
  }

  // Some recovery of a store on the host ends the run along the steps.
  ghost predicate EndedFromHost(w: World, steps: seq<Step>, hostname: string, r: nat)
    decreases |steps|
  {
    && steps != [] && Enabled(w, steps[0])
    && (|| (steps[0].Recover? && OnHost(w, steps[0].store, hostname) && r in w.runs && Next(w, steps[0]).runs[r] != w.runs[r])
        || EndedFromHost(Next(w, steps[0]), steps[1..], hostname, r))
  }

  // No recovery pending on the host means to end the run.
  predicate NotTargeted(w: World, hostname: string, r: nat) {
    forall s | s in w.stores && w.stores[s].host.hostname == hostname && w.stores[s].scan.Some? ::
      r !in w.stores[s].scan.value.candidates
  }

  lemma StepSparesLiveOwner(w: World, step: Step, r: nat, hostname: string, pid: nat, identity: string)
    requires Enabled(w, step) && r in w.runs && NotTargeted(w, hostname, r) && identity != ""
    requires IsLive(w.runs[r]) ==> OwnedBy(w.runs[r], hostname, pid, identity)
    requires step.Snapshot? && OnHost(w, step.store, hostname) ==>
               pid in step.probe.alive && pid in step.probe.identities && step.probe.identities[pid] == identity
    ensures var n := Next(w, step);
            && r in n.runs && NotTargeted(n, hostname, r)
            && (IsLive(n.runs[r]) ==> OwnedBy(n.runs[r], hostname, pid, identity))
            && (step.Recover? && OnHost(w, step.store, hostname) ==> n.runs[r] == w.runs[r])
  {
    OnlyEntitledStepsChangeRow(w, step, r);
  }

  // While a process lives and can be identified, no recovery from its host ends its run, in any
  // interleaving and however long its lease is silent.
  lemma {:induction false} LiveLocalOwnersAreSpared(w: World, steps: seq<Step>, last: World, r: nat, hostname: string, pid: nat,
                                                    identity: string)
    requires Run(w, steps, last) && SeenAlive(w, steps, hostname, pid, identity) && identity != ""
    requires r in w.runs && NotTargeted(w, hostname, r)
    requires IsLive(w.runs[r]) ==> OwnedBy(w.runs[r], hostname, pid, identity)
    ensures !EndedFromHost(w, steps, hostname, r)
    decreases |steps|
  {
    if steps != [] {
      StepSparesLiveOwner(w, steps[0], r, hostname, pid, identity);
      LiveLocalOwnersAreSpared(Next(w, steps[0]), steps[1..], last, r, hostname, pid, identity);
    }
  }

  // Nobody but its starter and recoveries changes a live row.
  lemma {:induction false} SameOrEnded(w: World, steps: seq<Step>, last: World, r: nat)
    requires ProtocolInvariant(w) && Run(w, steps, last) && r in w.runs
    requires r in w.starter ==> forall i :: 0 <= i < |steps| ==> steps[i].store != w.starter[r]
    ensures r in last.runs && (last.runs[r] == w.runs[r] || !IsLive(last.runs[r]))
    decreases |steps|
  {
    hide ProtocolInvariant, EntitledToChange, Next, Enabled, IsLive;
    if steps != [] {
      var w1 := Next(w, steps[0]);
      StepKeepsInvariant(w, steps[0]);
      OnlyEntitledStepsChangeRow(w, steps[0], r);
      SameStarter(w, steps[0], r);
      if w1.runs[r] == w.runs[r] {
        SameOrEnded(w1, steps[1..], last, r);
      } else {
        OnlyRecoveryOrStarter(w, steps[0], r);
        TerminalForever(w1, steps[1..], last, r);
      }
    }
  }

  lemma SameStarter(w: World, step: Step, r: nat)
    requires Enabled(w, step) && r in w.runs
    ensures r in Next(w, step).starter ==> r in w.starter && Next(w, step).starter[r] == w.starter[r]
  {
  }

  lemma OnlyRecoveryOrStarter(w: World, step: Step, r: nat)
    requires ProtocolInvariant(w) && Enabled(w, step) && r in w.runs && Next(w, step).runs[r] != w.runs[r]
    requires r in w.starter ==> step.store != w.starter[r]
    ensures !IsLive(Next(w, step).runs[r])
  {
    OnlyEntitledStepsChangeRow(w, step, r);
    if !step.Recover? {
      OnlyTheStarterWrites(w, step, r);
    }
  }

  // The run of a dead process ends: once a store on its host has looked and swapped, whatever other
  // stores do in between, the run is live no more. The dead process takes no step.
  lemma DeadOwnersAreRecovered(w: World, step: Step, steps: seq<Step>, last: World, r: nat)
    requires ProtocolInvariant(w) && step.Snapshot? && Enabled(w, step) && Run(Next(w, step), steps, last)
    requires r in w.runs && IsLive(w.runs[r]) && r !in w.stores[step.store].owned
    requires w.runs[r].ownerHostname == Some(w.stores[step.store].host.hostname)
    requires SeenDead(w.runs[r], step.probe)
    requires forall i :: 0 <= i < |steps| ==> steps[i].store != step.store
    requires r in w.starter ==> forall i :: 0 <= i < |steps| ==> steps[i].store != w.starter[r]
    ensures Enabled(last, Recover(step.store))
    ensures r in Next(last, Recover(step.store)).runs && !IsLive(Next(last, Recover(step.store)).runs[r])
  {
    StepKeepsInvariant(w, step);
    SameOrEnded(Next(w, step), steps, last, r);
    SwapComparesRows(w, step, steps, last, r);
  }
}
