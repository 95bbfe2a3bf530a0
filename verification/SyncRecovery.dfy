// When a recovery may end a run, over every interleaving of the stores: only after it has seen the
// owner dead, or unheard of for longer than the lease allows; and then it does.
module SyncRecovery {
  import opened Prelude
  import opened CatalogTables
  import opened SyncLeases
  import opened SyncProtocol

  // The rows a snapshot takes for its swap are exactly the running ones it does not hold itself
  // whose owner it must give up.
  lemma SnapshotTakesExactly(w: World, step: Step, r: nat)
    requires step.Snapshot? && Enabled(w, step)
    ensures var store := w.stores[step.store];
            var scan := Next(w, step).stores[step.store].scan.value;
            && Next(w, step).runs == w.runs && scan.now == step.now
            && (r in scan.candidates <==> r in w.runs && Forsaken(w.runs[r], TokenOf(store.owned, r), store.host, step.probe, step.now))
  {
    AbandonedExactly(w.runs, w.stores[step.store].owned, w.stores[step.store].host, step.probe, step.now, r);
  }

  // The store's last step was its k-th here, a look at the table that justifies ending the run.
  ghost predicate Justified(steps: seq<Step>, k: nat, s: nat, host: Host, row: SyncRun) {
    && k < |steps| && steps[k].Snapshot? && steps[k].store == s
    && (forall j :: k < j < |steps| ==> steps[j].store != s)
    && GivenUp(row, host, steps[k].probe, steps[k].now)
  }

  // A store does not look and complete at once.
  predicate OneThingAtATime(w: World, s: nat) {
    s in w.stores ==> w.stores[s].scan.None? || w.stores[s].failed.None?
  }

  predicate Targets(w: World, s: nat, r: nat, row: SyncRun) {
    && s in w.stores && w.stores[s].scan.Some? && r in w.stores[s].scan.value.candidates
    && w.stores[s].scan.value.candidates[r] == LeaseOf(row)
  }

  // One step: a recovery that is pending afterwards was pending before and the step was another
  // store's, or the step is the snapshot it comes from.
  lemma TargetsSince(w: World, step: Step, s: nat, r: nat, row: SyncRun)
    requires Enabled(w, step) && OneThingAtATime(w, s) && Targets(Next(w, step), s, r, row)
    ensures OneThingAtATime(Next(w, step), s)
    ensures if step.store == s
            then step.Snapshot? && step.now == Next(w, step).stores[s].scan.value.now
                 && GivenUp(row, Next(w, step).stores[s].host, step.probe, step.now)
            else s in w.stores && w.stores[s] == Next(w, step).stores[s]
  {
    if step.store == s {
      var seen := w.runs[r];
      assert step.Snapshot? && LeaseOf(seen) == LeaseOf(row);
      AbandonedExactly(w.runs, w.stores[s].owned, w.stores[s].host, step.probe, step.now, r);
      SameLeaseSameFate(seen, row, w.stores[s].host, step.probe, step.now);
    }
  }

  lemma SameLeaseSameFate(a: SyncRun, b: SyncRun, host: Host, probe: Probe, now: int)
    requires LeaseOf(a) == LeaseOf(b)
    ensures GivenUp(a, host, probe, now) == GivenUp(b, host, probe, now)
  {
  }

  lemma StepKeepsOneThing(w: World, step: Step, s: nat)
    requires Enabled(w, step) && OneThingAtATime(w, s)
    ensures OneThingAtATime(Next(w, step), s)
  {
  }

  lemma {:induction false} PendingIsJustified(w: World, steps: seq<Step>, last: World, s: nat, r: nat, row: SyncRun)
    requires Run(w, steps, last) && OneThingAtATime(w, s) && Targets(last, s, r, row)
    ensures || (s in w.stores && last.stores[s] == w.stores[s] && forall j :: 0 <= j < |steps| ==> steps[j].store != s)
            || exists k :: 0 <= k < |steps| && Justified(steps, k, s, last.stores[s].host, row)
                           && last.stores[s].scan.value.now == steps[k].now
    decreases |steps|
  {
    hide GivenUp, Next, Enabled;
    if steps != [] {
      var w1, later := Next(w, steps[0]), steps[1..];
      StepKeepsOneThing(w, steps[0], s);
      PendingIsJustified(w1, later, last, s, r, row);
      if k :| 0 <= k < |later| && Justified(later, k, s, last.stores[s].host, row) && last.stores[s].scan.value.now == later[k].now {
        assert steps[k + 1] == later[k];
        assert forall j :: k + 1 < j < |steps| ==> steps[j] == later[j - 1];
        assert Justified(steps, k + 1, s, last.stores[s].host, row);
      } else {
        assert forall j :: 0 < j < |steps| ==> steps[j] == later[j - 1];
        TargetsSince(w, steps[0], s, r, row);
        if steps[0].store == s {
          assert Justified(steps, 0, s, last.stores[s].host, row);
        }
      }
    }
  }

  // A recovery ends a run only if the last thing its store did was to look, and at that moment the
  // owner, by the columns the row still has, was seen dead on that host, or was not seen alive and
  // had not been heard of for longer than the lease allows.
  lemma RecoveriesAreJustified(w: World, steps: seq<Step>, last: World, s: nat, r: nat)
    requires Run(w, steps, last) && (s in w.stores ==> w.stores[s].scan.None?)
    requires Enabled(last, Recover(s)) && r in last.runs && Next(last, Recover(s)).runs[r] != last.runs[r]
    ensures exists k :: 0 <= k < |steps| && Justified(steps, k, s, last.stores[s].host, last.runs[r])
                        && EndedBy(last.runs[r], Next(last, Recover(s)).runs[r], steps[k].now)
  {
    hide GivenUp;
    PendingIsJustified(w, steps, last, s, r, last.runs[r]);
  }

  // Nobody on the steps looks at the run while its owner can be seen dead, nor later than the lease
  // allows after its last heartbeat unless the owner is then seen alive.
  ghost predicate HeardInTime(w: World, steps: seq<Step>, r: nat)
    decreases |steps|
  {
    steps != [] && Enabled(w, steps[0]) ==>
      && (steps[0].Snapshot? && r in w.runs ==>
            var host, run := w.stores[steps[0].store].host, w.runs[r];
            && !(run.ownerHostname == Some(host.hostname) && SeenDead(run, steps[0].probe))
            && (steps[0].now <= LastHeard(run) + host.abandonedAfterMs || SeenSame(run, host, steps[0].probe)))
      && HeardInTime(Next(w, steps[0]), steps[1..], r)
  }

  ghost predicate EndedByRecovery(w: World, steps: seq<Step>, r: nat)
    decreases |steps|
  {
    && steps != [] && Enabled(w, steps[0])
    && (|| (steps[0].Recover? && r in w.runs && Next(w, steps[0]).runs[r] != w.runs[r])
        || EndedByRecovery(Next(w, steps[0]), steps[1..], r))
  }

  predicate Untargeted(w: World, r: nat) {
    forall s | s in w.stores && w.stores[s].scan.Some? :: r !in w.stores[s].scan.value.candidates
  }

  lemma StepSparesHeardRun(w: World, step: Step, r: nat)
    requires Enabled(w, step) && r in w.runs && Untargeted(w, r)
    requires step.Snapshot? ==> !GivenUp(w.runs[r], w.stores[step.store].host, step.probe, step.now)
    ensures r in Next(w, step).runs && Untargeted(Next(w, step), r)
    ensures step.Recover? ==> Next(w, step).runs[r] == w.runs[r]
  {
    hide GivenUp;
    OnlyEntitledStepsChangeRow(w, step, r);
    if step.Snapshot? {
      SnapshotTakesExactly(w, step, r);
    }
  }

  // A run whose owner is heard of in time is ended by no recovery, of any host, in any interleaving.
  lemma {:induction false} RunsHeardOfAreSpared(w: World, steps: seq<Step>, last: World, r: nat)
    requires Run(w, steps, last) && r in w.runs && Untargeted(w, r) && HeardInTime(w, steps, r)
    ensures !EndedByRecovery(w, steps, r)
    decreases |steps|
  {
    hide Enabled, Next, Untargeted;
    if steps != [] {
      StepSparesHeardRun(w, steps[0], r);
      RunsHeardOfAreSpared(Next(w, steps[0]), steps[1..], last, r);
    }
  }

  lemma {:induction false} UntouchedEnds(w: World, steps: seq<Step>, last: World, r: nat, row: SyncRun)
    requires Run(w, steps, last) && Untouched(w, steps, r, row)
    ensures r in last.runs && last.runs[r] == row
    decreases |steps|
  {
    if steps != [] {
      UntouchedEnds(Next(w, steps[0]), steps[1..], last, r, row);
    }
  }

  // A store that looks at a run it does not hold and then swaps, nobody having changed the row in
  // between, ends it exactly if it had to give the owner up when it looked.
  lemma UndisturbedSwapEndsExactly(w: World, step: Step, steps: seq<Step>, last: World, r: nat)
    requires step.Snapshot? && Enabled(w, step) && Run(Next(w, step), steps, last)
    requires r in w.runs && w.runs[r].status.Running? && w.runs[r].completedAt.None? && r !in w.stores[step.store].owned
    requires forall i :: 0 <= i < |steps| ==> steps[i].store != step.store
    requires Untouched(Next(w, step), steps, r, w.runs[r])
    ensures Enabled(last, Recover(step.store)) && r in last.runs
    ensures var after := Next(last, Recover(step.store)).runs;
            if GivenUp(w.runs[r], w.stores[step.store].host, step.probe, step.now)
            then EndedBy(w.runs[r], after[r], step.now) else after[r] == w.runs[r]
  {
    hide GivenUp;
    UntouchedEnds(Next(w, step), steps, last, r, w.runs[r]);
    SnapshotTakesExactly(w, step, r);
    OthersKeepStore(Next(w, step), steps, last, step.store);
    OnlyEntitledStepsChangeRow(last, Recover(step.store), r);
    if GivenUp(w.runs[r], w.stores[step.store].host, step.probe, step.now) {
      SwapComparesRows(w, step, steps, last, r);
    }
  }

  // Of an owner on another host nothing can be seen, so that its run is ended exactly when it has
  // been silent for longer than the lease allows.
  lemma RemoteOwnersAreTimed(w: World, step: Step, steps: seq<Step>, last: World, r: nat)
    requires step.Snapshot? && Enabled(w, step) && Run(Next(w, step), steps, last)
    requires r in w.runs && w.runs[r].status.Running? && w.runs[r].completedAt.None? && r !in w.stores[step.store].owned
    requires w.runs[r].ownerHostname != Some(w.stores[step.store].host.hostname)
    requires forall i :: 0 <= i < |steps| ==> steps[i].store != step.store
    requires Untouched(Next(w, step), steps, r, w.runs[r])
    ensures Enabled(last, Recover(step.store)) && r in last.runs
    ensures Next(last, Recover(step.store)).runs[r].completedAt.Some? <==>
              step.now - LastHeard(w.runs[r]) > w.stores[step.store].host.abandonedAfterMs
  {
    UndisturbedSwapEndsExactly(w, step, steps, last, r);
  }
}
