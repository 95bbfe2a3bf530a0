// What aliases, staleness events and runs refer to: no transaction leaves a dangling reference.
module CatalogLedger {
  import opened Prelude
  import opened CatalogTables
  import opened CatalogInvariant
  import opened CatalogObservations
  import opened CatalogTransactions
  import opened CatalogIndexing
  import opened CatalogPurge
  import opened CatalogHistory
  import opened SyncLeases

  // The ledger of t, over catalog tables that have all rows t has.
  predicate SameLedger(t: Tables, u: Tables) {
    && u.aliases == t.aliases && u.events == t.events && u.runs == t.runs
    && (forall s :: s in t.sources ==> s in u.sources) && (forall d :: d in t.documents ==> d in u.documents)
  }

  lemma SameLedgerResolves(t: Tables, u: Tables)
    requires LedgerResolves(t) && SameLedger(t, u)
    ensures LedgerResolves(u)
  {
  }

  lemma {:induction false} UpsertedAliasKeys(aliases: map<AliasKey, Alias>, d: nat, inputs: seq<AliasInput>, at: int)
    ensures forall k :: k in UpsertAliases(aliases, d, inputs, at) ==> k in aliases || k.documentId == d
    decreases |inputs|
  {
    if inputs != [] {
      UpsertedAliasKeys(aliases, d, inputs[..|inputs| - 1], at);
    }
  }

  lemma ObservationKeepsLedger(before: Tables, x: Tables, owned: map<nat, OwnerToken>, d: nat,
                               observation: Option<Observation>, at: int)
    requires LedgerResolves(before) && SameLedger(before, x) && d in x.documents
    ensures LedgerResolves(Observe(before, x, owned, d, observation, at).tables)
  {
    SameLedgerResolves(before, x);
    var out := Observe(before, x, owned, d, observation, at);
    if observation.Some? && out.error.None? {
      ObservedKeepsLedger(x, d, observation.value, at);
    }
  }

  lemma ObservedKeepsLedger(x: Tables, d: nat, o: Observation, at: int)
    requires LedgerResolves(x) && d in x.documents && o.runId in x.runs
    ensures LedgerResolves(Observed(x, d, o, at))
  {
    UpsertedAliasKeys(x.aliases, d, o.aliases, at);
    var u := Observed(x, d, o, at);
    forall i | 0 <= i < |u.events|
      ensures u.events[i].documentId in u.documents && u.events[i].runId in u.runs
    {
      if i < |x.events| {
        assert u.events[i] == x.events[i];
      } else {
        assert u.events[i] == EventRows(d, o.runId, o.events, at)[i - |x.events|];
      }
    }
  }

  lemma UpsertKeepsLedger(t: Tables, owned: map<nat, OwnerToken>, input: DocumentInput, observation: Option<Observation>,
                          now: int, observedAt: int)
    requires BaseConsistent(t) && LedgerResolves(t)
    ensures LedgerResolves(UpsertDocument(t, owned, input, observation, now, observedAt).tables)
  {
    hide BaseConsistent, LedgerResolves, UpsertDocumentRows, ResolvedDocument, Observe, RefreshedFor;
    var rows := UpsertDocumentRows(t, input, now);
    if rows.Ok? {
      var d := ResolvedDocument(rows.value, input);
      var x := t.(documents := rows.value.documents);
      BaseParts(t);
      UpsertDocumentFacts(t, input, now);
      ObservationKeepsLedger(t, x, owned, d, observation, observedAt);
      var observed := Observe(t, x, owned, d, observation, observedAt).tables;
      IndexIsNotLedger(observed, RefreshedFor(observed, t.documents, rows.value.written, d));
      RefreshedLedger(observed, t.documents, rows.value.written, d);
    }
  }

  lemma RefreshedLedger(u: Tables, documents: map<nat, Document>, written: nat, d: nat)
    ensures SameLedger(u, RefreshedFor(u, documents, written, d))
  {
  }

  lemma IndexIsNotLedger(t: Tables, u: Tables)
    requires LedgerResolves(t)
    ensures SameLedger(t, u) ==> LedgerResolves(u)
  {
  }

  lemma RevisionKeepsLedger(t: Tables, w: DocumentWrite, d: nat, revision: RevisionInput, times: CommitTimes)
    requires w.documents.Keys == t.documents.Keys + {w.written} && d in w.documents
    requires RevisionRows(t, w.documents, d, revision, times).Ok?
    ensures var x := RevisionRows(t, w.documents, d, revision, times).value; SameLedger(t, x) && d in x.documents
  {
    hide ReplacedSections, ClearCurrentVersions, UpsertVersionRow;
  }

  // A commit ends with the tables it started from, or with the observed revision, reindexed or rolled back.
  lemma CommitOutcome(t: Tables, owned: map<nat, OwnerToken>, revision: RevisionInput, observation: Option<Observation>,
                      times: CommitTimes, rows: Result<DocumentWrite>, d: nat)
    requires rows == UpsertDocumentRows(t, revision.document, times.document)
    requires rows.Ok? ==> d == ResolvedDocument(rows.value, revision.document)
    ensures var u := Commit(t, owned, revision, observation, times).tables;
            || u == t
            || (&& rows.Ok?
                && var r := RevisionRows(t, rows.value.documents, d, revision, times);
                   && r.Ok?
                   && var observed := Observe(t, r.value, owned, d, observation, times.pointer).tables;
                      u == observed || u == RefreshedFor(observed, t.documents, rows.value.written, d))
  {
    hide UpsertDocumentRows, ResolvedDocument, RevisionRows, Observe, RefreshedFor, DocumentsByPublicId;
  }

  lemma CommitKeepsLedger(t: Tables, owned: map<nat, OwnerToken>, revision: RevisionInput, observation: Option<Observation>,
                          times: CommitTimes)
    requires BaseConsistent(t) && LedgerResolves(t)
    ensures LedgerResolves(Commit(t, owned, revision, observation, times).tables)
  {
    hide BaseConsistent, LedgerResolves, SameLedger, UpsertDocumentRows, ResolvedDocument, RevisionRows, Observe, RefreshedFor, Commit;
    var rows := UpsertDocumentRows(t, revision.document, times.document);
    var d := if rows.Ok? then ResolvedDocument(rows.value, revision.document) else 0;
    CommitOutcome(t, owned, revision, observation, times, rows, d);
    if rows.Ok? && RevisionRows(t, rows.value.documents, d, revision, times).Ok? {
      var w := rows.value;
      var x := RevisionRows(t, w.documents, d, revision, times).value;
      BaseParts(t);
      UpsertDocumentFacts(t, revision.document, times.document);
      RevisionKeepsLedger(t, w, d, revision, times);
      ObservationKeepsLedger(t, x, owned, d, observation, times.pointer);
      var observed := Observe(t, x, owned, d, observation, times.pointer).tables;
      RefreshedLedger(observed, t.documents, w.written, d);
      IndexIsNotLedger(observed, RefreshedFor(observed, t.documents, w.written, d));
    }
  }

  lemma TouchKeepsLedger(t: Tables, owned: map<nat, OwnerToken>, d: nat, observation: Option<Observation>, now: int)
    requires LedgerResolves(t)
    ensures LedgerResolves(TouchDocument(t, owned, d, observation, now).tables)
  {
    hide LedgerResolves, Observe, Projection;
    if d in t.documents {
      var touched := t.(documents := t.documents[d := t.documents[d].(lastSeenAt := now)]);
      ObservationKeepsLedger(t, touched, owned, d, observation, now);
      var observed := Observe(t, touched, owned, d, observation, now).tables;
      IndexIsNotLedger(observed, Reindexed(observed));
    }
  }

  lemma RecordKeepsLedger(t: Tables, owned: map<nat, OwnerToken>, d: nat, observation: Observation, now: int)
    requires LedgerResolves(t)
    ensures LedgerResolves(RecordObservation(t, owned, d, observation, now).tables)
  {
    hide LedgerResolves, Observe, Projection;
    if d in t.documents {
      ObservationKeepsLedger(t, t, owned, d, Some(observation), now);
      var observed := Observe(t, t, owned, d, Some(observation), now).tables;
      IndexIsNotLedger(observed, Reindexed(observed));
    }
  }

  lemma MoreSourcesKeepLedger(t: Tables, sources: map<nat, Source>, s: nat, row: Source)
    requires sources == t.sources[s := row]
    ensures SameLedger(t, Reindexed(t.(sources := sources)))
  {
    hide Projection;
  }

  lemma AddSourceKeepsLedger(t: Tables, owned: map<nat, OwnerToken>, source: SourceInput, now: int)
    ensures SameLedger(t, AddSource(t, owned, source, now).tables)
  {
    hide Reindexed, NextRowId, SameLedger;
    var s, row := NextRowId(t.sources.Keys), Source(source.key, source.displayName, source.enabled, now, now);
    MoreSourcesKeepLedger(t, t.sources[s := row], s, row);
    Unchanged(t);
  }

  lemma UpdateSourceKeepsLedger(t: Tables, owned: map<nat, OwnerToken>, source: SourceInput, now: int)
    ensures SameLedger(t, UpdateSource(t, owned, source, now).tables)
  {
    hide Reindexed, SameLedger;
    hide UpdateSource;
    UpdatedSources(t, owned, source, now);
    OtherSources(t, UpdateSource(t, owned, source, now).tables.sources);
    Unchanged(t);
  }

  lemma OtherSources(t: Tables, sources: map<nat, Source>)
    requires forall s :: s in t.sources ==> s in sources
    ensures SameLedger(t, Reindexed(t.(sources := sources)))
  {
    hide Projection;
  }

  // An update changes the sources' fields and the index.
  lemma UpdatedSources(t: Tables, owned: map<nat, OwnerToken>, source: SourceInput, now: int)
    ensures var u := UpdateSource(t, owned, source, now).tables;
            (forall s :: s in t.sources ==> s in u.sources) && (u == t || u == Reindexed(t.(sources := u.sources)))
  {
    hide Projection;
  }

  lemma RebuildKeepsLedger(t: Tables)
    ensures SameLedger(t, Reindexed(t))
  {
  }

  lemma Unchanged(t: Tables)
    ensures SameLedger(t, t)
  {
  }

  lemma PurgeKeepsLedger(t: Tables, scope: Option<string>, keep: nat)
    ensures SameLedger(t, Purge(t, scope, keep))
  {
    hide Projection, PurgeCandidates, SectionsOfVersions;
  }

  lemma AddVersionKeepsLedger(t: Tables, owned: map<nat, OwnerToken>, input: VersionInput, now: int)
    ensures SameLedger(t, AddVersion(t, owned, input, now).tables)
  {
    hide Projection, AddedVersion;
  }

  lemma ReplaceSectionsKeepsLedger(t: Tables, owned: map<nat, OwnerToken>, v: nat, inputs: seq<SectionInput>, now: int)
    ensures SameLedger(t, ReplaceSections(t, owned, v, inputs, now).tables)
  {
    hide Projection, ReplacedSections, StrandedRows, PromotedVersions, PointedTo, SameLedger;
    var u := ReplaceSections(t, owned, v, inputs, now).tables;
    if v in t.versions && t.versions[v].pendingCurrent {
      PointedToKeepsRows(t.documents, t.versions[v].documentId, v, now);
      SameRows(t, u);
    } else if v in t.versions && t.versions[v].isCurrent {
      SameRows(t, u);
    } else {
      SameRows(t, u);
    }
  }

  lemma PointedToKeepsRows(documents: map<nat, Document>, d: nat, v: nat, now: int)
    ensures PointedTo(documents, d, v, now).Keys == documents.Keys
  {
  }

  lemma SameRows(t: Tables, u: Tables)
    requires u == t.(documents := u.documents, versions := u.versions, sections := u.sections, index := u.index)
    requires u.documents.Keys == t.documents.Keys
    ensures SameLedger(t, u)
  {
  }

  lemma RunsKeepLedger(t: Tables, runs: map<nat, SyncRun>)
    requires LedgerResolves(t)
    requires forall r :: r in t.runs ==> r in runs
    requires forall r | r in runs :: (r in t.runs && runs[r].sourceId == t.runs[r].sourceId)
                                     || (runs[r].sourceId.Some? ==> runs[r].sourceId.value in t.sources)
    ensures LedgerResolves(t.(runs := runs))
  {
  }

  lemma RunStepsKeepLedger(t: Tables, owned: map<nat, OwnerToken>, op: Op)
    requires LedgerResolves(t) && (op.StartOp? || op.CompleteOp? || op.RecoverOp?)
    ensures LedgerResolves(Apply(t, owned, op).tables)
  {
    hide NextRowId, ScopeTaken, LedgerResolves, UpsertDocument, Commit, TouchDocument, RecordObservation,
         AddSource, UpdateSource, AddVersion, ReplaceSections, Purge, Projection, StillAsSnapshot;
    if op.StartOp? {
      RunsKeepLedger(t, Apply(t, owned, op).tables.runs);
    } else if op.CompleteOp? {
      RunsKeepLedger(t, Apply(t, owned, op).tables.runs);
    } else {
      RunsKeepLedger(t, Apply(t, owned, op).tables.runs);
    }
  }

  // Whatever the operation and its input, no alias, event or run comes to refer to a missing row.
  lemma StepKeepsLedger(t: Tables, owned: map<nat, OwnerToken>, op: Op)
    requires BaseConsistent(t) && LedgerResolves(t)
    ensures LedgerResolves(Apply(t, owned, op).tables)
  {
    hide BaseConsistent, LedgerResolves, UpsertDocument, Commit, TouchDocument, RecordObservation, SameLedger,
         AddSource, UpdateSource, AddVersion, ReplaceSections, Purge, Projection;
    match op {
      case AddSourceOp(source, now) => AddSourceKeepsLedger(t, owned, source, now);
      case UpdateSourceOp(source, now) => UpdateSourceKeepsLedger(t, owned, source, now);
      case UpsertOp(document, observation, now, observedAt) => UpsertKeepsLedger(t, owned, document, observation, now, observedAt);
      case CommitOp(revision, observation, times) => CommitKeepsLedger(t, owned, revision, observation, times);
      case TouchOp(d, observation, now) => TouchKeepsLedger(t, owned, d, observation, now);
      case RecordOp(d, o, now) => RecordKeepsLedger(t, owned, d, o, now);
      case AddVersionOp(version, now) => AddVersionKeepsLedger(t, owned, version, now);
      case ReplaceSectionsOp(v, sections, now) => ReplaceSectionsKeepsLedger(t, owned, v, sections, now);
      case PurgeOp(scope, keep) => PurgeKeepsLedger(t, scope, keep);
      case RebuildOp => RebuildKeepsLedger(t);
      case _ => RunStepsKeepLedger(t, owned, op);
    }
    var u := Apply(t, owned, op).tables;
    if SameLedger(t, u) {
      SameLedgerResolves(t, u);
    }
  }
}
