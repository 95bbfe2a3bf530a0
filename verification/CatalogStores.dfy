// The shared database and the store that leases sync runs in it.
module CatalogStores {
  import opened Prelude
  import opened CatalogTables
  import opened CatalogObservations
  import opened SyncLeases

  class CatalogDatabase {
    var sources: map<nat, Source>
    var documents: map<nat, Document>
    var versions: map<nat, Version>
    var sections: map<nat, Section>
    var index: map<nat, IndexRow>
    var aliases: map<AliasKey, Alias>
    var events: seq<StalenessEvent>
    var runs: map<nat, SyncRun>

    function Tables(): Tables
      reads this
    {
      CatalogTables.Tables(sources, documents, versions, sections, index, aliases, events, runs)
    }

    // ROLLBACK: back to the tables the transaction started from.
    method Restore(snapshot: Tables)
      modifies this
      ensures Tables() == snapshot
    {
      sources, documents, versions, sections := snapshot.sources, snapshot.documents, snapshot.versions, snapshot.sections;
      index, aliases, events, runs := snapshot.index, snapshot.aliases, snapshot.events, snapshot.runs;
    }
  }

  class SyncStore {
    const database: CatalogDatabase
    const host: Host
    var ownedRuns: map<nat, OwnerToken>

    constructor (database: CatalogDatabase, host: Host)
      ensures this.database == database && this.host == host && ownedRuns == map[]
    {
      this.database := database;
      this.host := host;
      ownedRuns := map[];
    }

    // The unlocked half of a recovery: liveness is judged before the writer is reserved.
    method SelectAbandoned(probe: Probe, now: int) returns (candidates: map<nat, Lease>)
      ensures candidates == AbandonedLeases(database.runs, ownedRuns, host, probe, now)
      ensures forall r :: r in candidates <==>
                          r in database.runs && Forsaken(database.runs[r], TokenOf(ownedRuns, r), host, probe, now)
    {
      candidates := map[];
      var rows := database.runs.Keys;
      while rows != {}
        invariant rows <= database.runs.Keys
        invariant candidates.Keys <= database.runs.Keys - rows
        invariant forall r :: r in database.runs && r !in rows ==>
          (r in candidates <==> r in AbandonedLeases(database.runs, ownedRuns, host, probe, now))
        invariant forall r :: r in candidates ==> candidates[r] == LeaseOf(database.runs[r])
      {
        var r :| r in rows;
        rows := rows - {r};
        var run := database.runs[r];
        if IsLive(run) {
          var locallyOwned := r in ownedRuns && run.ownerToken == Some(ownedRuns[r]);
          if !locallyOwned && IsAbandoned(LeaseOf(run), host, probe, now) {
            candidates := candidates[r := LeaseOf(run)];
          }
        }
      }
      forall r
        ensures r in candidates <==> r in database.runs && Forsaken(database.runs[r], TokenOf(ownedRuns, r), host, probe, now)
      {
        AbandonedExactly(database.runs, ownedRuns, host, probe, now, r);
      }
    }

    // The locked half: one compare-and-swap a candidate.
    method RecoverCandidates(candidates: map<nat, Lease>, now: int) returns (recovered: nat)
      modifies database`runs
      ensures database.runs == RecoverRuns(old(database.runs), candidates, now)
      ensures recovered == |RecoverableRuns(old(database.runs), candidates)|
    {
      ghost var before := database.runs;
      recovered := 0;
      var rows := candidates.Keys;
      assert RecoverRuns(before, candidates - rows, now) == before;
      assert RecoverableRuns(before, candidates - rows) == {};
      while rows != {}
        invariant rows <= candidates.Keys
        invariant database.runs == RecoverRuns(before, candidates - rows, now)
        invariant recovered == |RecoverableRuns(before, candidates - rows)|
      {
        var r :| r in rows;
        RecoverOneMore(before, candidates, rows, r, now);
        rows := rows - {r};
        if r in database.runs && StillAsSnapshot(database.runs[r], candidates[r]) {
          database.runs := database.runs[r := RecoveredRun(database.runs[r], now)];
          recovered := recovered + 1;
        }
      }
      assert candidates - rows == candidates;
    }

    static lemma RecoverOneMore(before: map<nat, SyncRun>, candidates: map<nat, Lease>, rows: set<nat>, r: nat, now: int)
      requires r in rows && rows <= candidates.Keys
      ensures var done, more := RecoverRuns(before, candidates - rows, now), RecoverRuns(before, candidates - (rows - {r}), now);
              var doneRows, moreRows := RecoverableRuns(before, candidates - rows), RecoverableRuns(before, candidates - (rows - {r}));
              if r in before && StillAsSnapshot(before[r], candidates[r])
              then done[r] == before[r] && more == done[r := RecoveredRun(before[r], now)] && |moreRows| == |doneRows| + 1
              else more == done && moreRows == doneRows
    {
      var doneRows, moreRows := RecoverableRuns(before, candidates - rows), RecoverableRuns(before, candidates - (rows - {r}));
      if r in before && StillAsSnapshot(before[r], candidates[r]) {
        assert moreRows == doneRows + {r};
      } else {
        assert moreRows == doneRows;
      }
    }

    // With no other store between the two halves, exactly the abandoned runs are recovered.
    method RecoverAbandonedRuns(probe: Probe, now: int) returns (recovered: nat)
      modifies database`runs
      ensures var abandoned := AbandonedLeases(old(database.runs), ownedRuns, host, probe, now);
              && database.runs == (map r | r in old(database.runs) ::
                   if r in abandoned then RecoveredRun(old(database.runs)[r], now) else old(database.runs)[r])
              && recovered == |abandoned.Keys|
      ensures database.runs.Keys == old(database.runs).Keys
      ensures OnlyForsakenEnded(old(database.runs), database.runs, ownedRuns, host, probe, now)
      ensures recovered == |set r | r in old(database.runs)
                                    && Forsaken(old(database.runs)[r], TokenOf(ownedRuns, r), host, probe, now)|
    {
      hide Forsaken, IsAbandoned;
      var candidates := SelectAbandoned(probe, now);
      RecoveredExactly(database.runs, ownedRuns, host, probe, now);
      assert candidates.Keys == set r | r in database.runs && Forsaken(database.runs[r], TokenOf(ownedRuns, r), host, probe, now);
      if |candidates| == 0 {
        return 0;
      }
      recovered := RecoverCandidates(candidates, now);
      assert RecoverableRuns(old(database.runs), candidates) == candidates.Keys;
    }

    method Start(sourceId: Option<nat>, kind: RunKind, startedAt: int, token: OwnerToken, probe: Probe, now: int)
      returns (id: nat, error: Option<CatalogError>)
      modifies database`runs, this`ownedRuns
      ensures var recovered := RecoverRuns(old(database.runs),
                                 AbandonedLeases(old(database.runs), old(ownedRuns), host, probe, now), now);
              var out := InsertRun(recovered, old(ownedRuns), database.sources.Keys, sourceId, kind, startedAt, token, host);
              && database.runs == out.runs && ownedRuns == out.owned && error == out.error
              && (error.None? ==> id == NextRowId(recovered.Keys))
      ensures OnlyForsakenEnded(old(database.runs), database.runs, old(ownedRuns), host, probe, now)
      ensures var blocked := kind.Execution? && Blocked(old(database.runs), old(ownedRuns), sourceId, host, probe, now);
              && (error == Some(RunAlreadyRunning) <==> blocked)
              && (error.None? <==> !blocked && (sourceId.None? || sourceId.value in database.sources))
      ensures error.None? ==>
                && id !in old(database.runs) && database.runs.Keys == old(database.runs).Keys + {id}
                && BeganAs(database.runs[id], sourceId, kind, startedAt, token, host) && ownedRuns == old(ownedRuns)[id := token]
      ensures error.Some? ==> database.runs.Keys == old(database.runs).Keys && ownedRuns == old(ownedRuns)
    {
      hide Forsaken, IsAbandoned, OnlyForsakenEnded, Blocked, AbandonedLeases, RecoverRuns, BeganAs, IsLive, HoldsLease;
      StartedExactly(database.runs, ownedRuns, database.sources.Keys, sourceId, kind, startedAt, token, host, probe, now);
      var candidates := SelectAbandoned(probe, now);
      var _ := RecoverCandidates(candidates, now);
      id, error := 0, None;
      var overlapping := set r | r in database.runs && LiveExecution(database.runs[r])
                                 && ScopesOverlap(sourceId, database.runs[r].sourceId);
      assert ScopeTaken(database.runs, sourceId) ==> overlapping != {} by {
        if ScopeTaken(database.runs, sourceId) {
          var r :| r in database.runs && LiveExecution(database.runs[r]) && ScopesOverlap(sourceId, database.runs[r].sourceId);
          assert r in overlapping;
        }
      }
      if kind.Execution? && overlapping != {} {
        error := Some(RunAlreadyRunning);
      } else if sourceId.Some? && sourceId.value !in database.sources {
        error := Some(ConstraintViolation);
      } else {
        id := AllocateRowId(database.runs.Keys);
        database.runs := database.runs[id := StartedRun(sourceId, kind, startedAt, token, host)];
        ownedRuns := ownedRuns[id := token];
      }
    }

    method Complete(runId: nat, input: CompletionInput) returns (error: Option<CatalogError>)
      requires !input.status.Running?
      modifies database`runs, this`ownedRuns
      ensures var out := CompleteRun(old(database.runs), old(ownedRuns), runId, input);
              database.runs == out.runs && ownedRuns == out.owned && error == out.error
      ensures error.None? <==>
                && runId in old(ownedRuns) && runId in old(database.runs)
                && var run := old(database.runs)[runId];
                   run.status.Running? && run.completedAt.None? && run.ownerToken == Some(old(ownedRuns)[runId])
                   && run.startedAt <= input.completedAt
      ensures error.None? ==>
                && var run := old(database.runs)[runId];
                   database.runs == old(database.runs)[runId :=
                     SyncRun(run.sourceId, run.kind, run.startedAt, Some(input.completedAt), input.status, input.totals,
                             input.errorSummary, None, None, None, Some(input.completedAt))]
      ensures error.Some? ==> database.runs == old(database.runs)
      ensures error == Some(RunNotFound) <==> runId !in old(database.runs)
      ensures error == Some(RunAlreadyCompleted) <==>
                && runId in old(database.runs) && runId !in old(ownedRuns)
                && (old(database.runs)[runId].status != Running || old(database.runs)[runId].completedAt.Some?)
      ensures error == Some(CompletionPrecedesStart) ==> input.completedAt < old(database.runs)[runId].startedAt
      ensures error in {None, Some(RunNotFound), Some(RunAlreadyCompleted), Some(CompletionPrecedesStart), Some(OwnershipLost)}
    {
      error := None;
      if runId !in database.runs {
        error := Some(RunNotFound);
      } else if !IsLive(database.runs[runId]) {
        error := Some(if runId in ownedRuns then OwnershipLost else RunAlreadyCompleted);
      } else if runId !in ownedRuns || database.runs[runId].ownerToken != Some(ownedRuns[runId]) {
        error := Some(OwnershipLost);
      } else if input.completedAt < database.runs[runId].startedAt {
        error := Some(CompletionPrecedesStart);
      } else {
        database.runs := database.runs[runId := CompletedRun(database.runs[runId], input)];
      }
      if error.None? {
        ownedRuns := ownedRuns - {runId};
      } else {
        ReconcileCompletionOwnership(runId);
      }
    }

    // A failed completion keeps the token only while the row still carries it.
    method ReconcileCompletionOwnership(runId: nat)
      modifies this`ownedRuns
      ensures ownedRuns == if runId in old(ownedRuns) && !HoldsLease(database.runs, runId, old(ownedRuns)[runId])
                           then old(ownedRuns) - {runId} else old(ownedRuns)
    {
      if runId in ownedRuns {
        var token := ownedRuns[runId];
        if runId !in database.runs || !database.runs[runId].status.Running?
           || database.runs[runId].completedAt.Some? || database.runs[runId].ownerToken != Some(token) {
          ownedRuns := ownedRuns - {runId};
        }
      }
    }

    method RenewOwnedRun(runId: nat, observedAt: int) returns (error: Option<CatalogError>)
      modifies database`runs, this`ownedRuns
      ensures error.None? <==> runId in old(ownedRuns) && HoldsLease(old(database.runs), runId, old(ownedRuns)[runId])
      ensures error.None? ==>
                && database.runs == TouchHeartbeat(old(database.runs), runId, old(ownedRuns)[runId], observedAt)
                && ownedRuns == old(ownedRuns)
      ensures error.None? ==>
                var run := old(database.runs)[runId];
                && run.status.Running? && run.completedAt.None? && run.ownerToken == Some(old(ownedRuns)[runId])
                && database.runs == old(database.runs)[runId := run.(heartbeatAt := Some(observedAt))]
      ensures error.Some? ==>
                && database.runs == old(database.runs)
                && ownedRuns == old(ownedRuns) - {runId}
                && error == Some(if runId in old(ownedRuns) || runId in database.runs then OwnershipLost else ConstraintViolation)
    {
      error := None;
      if runId !in ownedRuns {
        error := Some(if runId in database.runs then OwnershipLost else ConstraintViolation);
      } else if HoldsLease(database.runs, runId, ownedRuns[runId]) {
        database.runs := database.runs[runId := database.runs[runId].(heartbeatAt := Some(observedAt))];
      } else {
        ownedRuns := ownedRuns - {runId};
        error := Some(OwnershipLost);
      }
      assert runId !in old(ownedRuns) ==> old(ownedRuns) - {runId} == old(ownedRuns);
    }

    // Runs inside the caller's transaction, which rolls back on an error.
    method PersistObservation(documentId: nat, observation: Option<Observation>, observedAt: int)
      returns (error: Option<CatalogError>)
      modifies database`runs, database`versions, database`aliases, database`events, this`ownedRuns
      ensures var t := old(database.Tables());
              var out := Observe(t, t, old(ownedRuns), documentId, observation, observedAt);
              && error == out.error && ownedRuns == out.owned
              && (error.None? ==> database.Tables() == out.tables)
    {
      error := None;
      if observation.None? {
        return;
      }
      var o := observation.value;
      error := RenewOwnedRun(o.runId, observedAt);
      if error.Some? {
        assert o.runId !in old(ownedRuns) ==> old(ownedRuns) - {o.runId} == old(ownedRuns);
        return;
      }
      var current := CurrentVersion(database.Tables(), documentId);
      if o.validators.Some? {
        if current.None? {
          error := Some(ValidatorRefreshFailed);
          return;
        }
        var v := current.value;
        database.versions := database.versions[v := RefreshedVersion(database.versions[v], o.validators.value, observedAt)];
      }
      UpsertAliasRows(documentId, o.aliases, observedAt);
      error := InsertEvents(documentId, o.runId, o.events, observedAt);
    }

    method UpsertAliasRows(documentId: nat, inputs: seq<AliasInput>, at: int)
      modifies database`aliases
      ensures database.aliases == UpsertAliases(old(database.aliases), documentId, inputs, at)
    {
      for i := 0 to |inputs|
        invariant database.aliases == UpsertAliases(old(database.aliases), documentId, inputs[..i], at)
      {
        assert inputs[..i + 1][..i] == inputs[..i];
        database.aliases := UpsertAlias(database.aliases, documentId, inputs[i], at);
      }
      assert inputs[..|inputs|] == inputs;
    }

    method InsertEvents(documentId: nat, runId: nat, inputs: seq<EventInput>, at: int)
      returns (error: Option<CatalogError>)
      modifies database`events
      ensures error == if ValidEvents(inputs) then None else Some(EventDetailsInvalid)
      ensures error.None? ==> database.events == old(database.events) + EventRows(documentId, runId, inputs, at)
    {
      error := None;
      for i := 0 to |inputs|
        invariant ValidEvents(inputs[..i])
        invariant database.events == old(database.events) + EventRows(documentId, runId, inputs[..i], at)
      {
        if !inputs[i].isJsonObject {
          return Some(EventDetailsInvalid);
        }
        database.events := database.events + [StalenessEvent(documentId, runId, inputs[i].eventType, at, inputs[i].details)];
      }
      assert inputs[..|inputs|] == inputs;
    }
  }
}
