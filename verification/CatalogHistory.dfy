// Histories: any sequence of catalog transactions by any number of stores.
module CatalogHistory {
  import opened Prelude
  import opened CatalogTables
  import opened CatalogInvariant
  import opened CatalogObservations
  import opened CatalogTransactions
  import opened CatalogIndexing
  import opened CatalogPurge
  import opened SyncLeases

  datatype Op =
    | AddSourceOp(source: SourceInput, now: int)
    | UpdateSourceOp(source: SourceInput, now: int)
    | UpsertOp(document: DocumentInput, observation: Option<Observation>, now: int, observedAt: int)
    | CommitOp(revision: RevisionInput, observation: Option<Observation>, times: CommitTimes)
    | TouchOp(documentId: nat, observation: Option<Observation>, now: int)
    | RecordOp(documentId: nat, recorded: Observation, now: int)
    | AddVersionOp(version: VersionInput, now: int)
    | ReplaceSectionsOp(versionId: nat, sections: seq<SectionInput>, now: int)
    | PurgeOp(scope: Option<string>, keep: nat)
    | RebuildOp
    | StartOp(sourceId: Option<nat>, kind: RunKind, startedAt: int, token: OwnerToken, host: Host)
    | CompleteOp(runId: nat, input: CompletionInput)
    | RecoverOp(candidates: map<nat, Lease>, now: int)

  ghost function Apply(t: Tables, owned: map<nat, OwnerToken>, op: Op): Outcome {
    match op
    case AddSourceOp(source, now) => AddSource(t, owned, source, now)
    case UpdateSourceOp(source, now) => UpdateSource(t, owned, source, now)
    case UpsertOp(document, observation, now, observedAt) => UpsertDocument(t, owned, document, observation, now, observedAt)
    case CommitOp(revision, observation, times) => Commit(t, owned, revision, observation, times)
    case TouchOp(d, observation, now) => TouchDocument(t, owned, d, observation, now)
    case RecordOp(d, observation, now) => RecordObservation(t, owned, d, observation, now)
    case AddVersionOp(version, now) => AddVersion(t, owned, version, now)
    case ReplaceSectionsOp(v, sections, now) => ReplaceSections(t, owned, v, sections, now)
    case PurgeOp(scope, keep) => Succeeded(Purge(t, scope, keep), owned)
    case RebuildOp => Succeeded(Reindexed(t), owned)
    case StartOp(sourceId, kind, startedAt, token, host) =>
      var out := InsertRun(t.runs, owned, t.sources.Keys, sourceId, kind, startedAt, token, host);
      Outcome(t.(runs := out.runs), out.owned, out.error)
    case CompleteOp(r, input) =>
      var out := CompleteRun(t.runs, owned, r, input);
      Outcome(t.(runs := out.runs), out.owned, out.error)
    case RecoverOp(candidates, now) => Succeeded(t.(runs := RecoverRuns(t.runs, candidates, now)), owned)
  }

  /*** Base consistency ***/

  lemma ObservationKeepsBase(before: Tables, x: Tables, owned: map<nat, OwnerToken>, d: nat,
                             observation: Option<Observation>, at: int)
    requires BaseConsistent(before) && BaseConsistent(x)
    ensures BaseConsistent(Observe(before, x, owned, d, observation, at).tables)
  {
    var out := Observe(before, x, owned, d, observation, at);
    if out.error.None? && observation.Some? {
      ObservedKeepsCatalog(x, d, observation.value, at);
    }
  }

  lemma IndexIsNotBase(t: Tables, index: map<nat, IndexRow>)
    requires BaseConsistent(t)
    ensures BaseConsistent(t.(index := index))
  {
  }

  lemma UpsertKeepsBase(t: Tables, w: DocumentWrite, d: nat)
    requires BaseConsistent(t) && UpsertShape(t, w, d) && UniqueDocuments(w.documents)
    ensures BaseConsistent(t.(documents := w.documents))
  {
    hide UniqueSources, UniqueDocuments, UniqueVersions;
  }

  lemma PromotedPointers(t: Tables, u: Tables, d: nat, v: nat)
    requires PointersMatchFlags(t.documents, t.versions) && Promoted(t, u, d, v)
    ensures forall e | e in u.documents && u.documents[e].currentVersion.Some? ::
              var w := u.documents[e].currentVersion.value;
              w in u.versions && u.versions[w].documentId == e && u.versions[w].isCurrent
  {
    forall e | e in u.documents && u.documents[e].currentVersion.Some?
      ensures var w := u.documents[e].currentVersion.value;
              w in u.versions && u.versions[w].documentId == e && u.versions[w].isCurrent
    {
      if e != d {
        var w := t.documents[e].currentVersion.value;
        assert t.versions[w].documentId == e && w != v;
      }
    }
  }

  lemma PromotedFlags(t: Tables, u: Tables, d: nat, v: nat)
    requires PointersMatchFlags(t.documents, t.versions) && Promoted(t, u, d, v)
    ensures forall w | w in u.versions && u.versions[w].isCurrent ::
              && u.versions[w].documentId in u.documents
              && u.documents[u.versions[w].documentId].currentVersion == Some(w)
              && !u.versions[w].pendingCurrent
  {
    forall w | w in u.versions && u.versions[w].isCurrent
      ensures u.versions[w].documentId in u.documents
      ensures u.documents[u.versions[w].documentId].currentVersion == Some(w) && !u.versions[w].pendingCurrent
    {
      if w != v {
        assert w in t.versions && t.versions[w].documentId != d && u.versions[w] == t.versions[w];
      }
    }
  }

  lemma PromotionKeepsBase(t: Tables, u: Tables, d: nat, v: nat)
    requires BaseConsistent(t) && Promoted(t, u, d, v)
    requires UniqueDocuments(u.documents) && UniqueVersions(u.versions)
    ensures BaseConsistent(u)
  {
    PromotedResolves(t, u, d, v);
    PromotedPointers(t, u, d, v);
    PromotedFlags(t, u, d, v);
  }

  lemma UpsertedThenPromotedKeepsBase(t: Tables, w: DocumentWrite, d: nat, after: Tables, v: nat, now: int)
    requires BaseConsistent(t) && ReferencesResolve(t) && UpsertShape(t, w, d)
    requires UniqueDocuments(w.documents) && UniqueVersions(after.versions)
    requires after.documents == PointedTo(w.documents, d, v, now) && after.sources == t.sources
    requires FlagMoved(t.versions, after.versions, d, v) && SectionsReplaced(t.sections, after.sections, v)
    ensures BaseConsistent(after)
  {
    hide BaseConsistent;
    var x := t.(documents := w.documents);
    UpsertKeepsBase(t, w, d);
    PointedToKeepsKeys(w.documents, d, v, now);
    UpsertedRowPromoted(t, w, d, after, v, now);
    PromotionKeepsBase(x, after, d, v);
  }

  lemma PointedToKeepsKeys(documents: map<nat, Document>, d: nat, v: nat, now: int)
    requires UniqueDocuments(documents)
    ensures UniqueDocuments(PointedTo(documents, d, v, now))
  {
  }

  lemma UpsertedRowPromoted(t: Tables, w: DocumentWrite, d: nat, after: Tables, v: nat, now: int)
    requires UpsertShape(t, w, d) && ReferencesResolve(t)
    requires after.documents == PointedTo(w.documents, d, v, now) && after.sources == t.sources
    requires FlagMoved(t.versions, after.versions, d, v) && SectionsReplaced(t.sections, after.sections, v)
    ensures Promoted(t.(documents := w.documents), after, d, v)
  {
  }

  lemma RevisionKeepsBase(t: Tables, w: DocumentWrite, d: nat, revision: RevisionInput, times: CommitTimes)
    requires BaseConsistent(t) && UpsertShape(t, w, d) && UniqueDocuments(w.documents)
    ensures var r := RevisionRows(t, w.documents, d, revision, times); r.Ok? ==> BaseConsistent(r.value)
  {
    hide BaseConsistent, ReferencesResolve, UniqueDocuments, UniqueVersions, PointersMatchFlags, FlagMoved, SectionsReplaced,
         UpsertShape;
    BaseParts(t);
    var r := RevisionRows(t, w.documents, d, revision, times);
    if r.Ok? {
      var v := RevisionVersion(t.versions, d, revision, times);
      CommittedVersionMovesFlag(t.versions, revision.version, d, times.version);
      ClearedFacts(t.versions, d);
      UpsertVersionFacts(ClearCurrentVersions(t.versions, d), revision.version.(documentId := d, isCurrent := true), times.version, false);
      ReplacedSectionsFacts(t.sections, v, revision.sections);
      UpsertedThenPromotedKeepsBase(t, w, d, r.value, v, times.pointer);
    }
  }

  lemma CommitKeepsBase(t: Tables, owned: map<nat, OwnerToken>, revision: RevisionInput,
                        observation: Option<Observation>, times: CommitTimes)
    requires BaseConsistent(t)
    ensures BaseConsistent(Commit(t, owned, revision, observation, times).tables)
  {
    hide BaseConsistent, ReferencesResolve, UniqueDocuments, UpsertShape, UpsertDocumentRows, ResolvedDocument, RevisionRows,
         Observe, RefreshedFor;
    BaseParts(t);
    var rows := UpsertDocumentRows(t, revision.document, times.document);
    if revision.sections != [] && rows.Ok? {
      var w := rows.value;
      var d := ResolvedDocument(w, revision.document);
      UpsertDocumentFacts(t, revision.document, times.document);
      RevisionKeepsBase(t, w, d, revision, times);
      var r := RevisionRows(t, w.documents, d, revision, times);
      if r.Ok? {
        FinishedKeepsBase(t, r.value, owned, d, observation, times.pointer, t.documents, w.written);
        FailedObservation(t, r.value, owned, d, observation, times.pointer);
      }
    }
  }

  lemma FailedObservation(before: Tables, x: Tables, owned: map<nat, OwnerToken>, d: nat,
                          observation: Option<Observation>, at: int)
    ensures var out := Observe(before, x, owned, d, observation, at); out.error.Some? ==> out.tables == before
  {
  }

  // The observation and the index refresh that end a transaction.
  lemma FinishedKeepsBase(t: Tables, x: Tables, owned: map<nat, OwnerToken>, d: nat, observation: Option<Observation>,
                          at: int, documents: map<nat, Document>, written: nat)
    requires BaseConsistent(t) && BaseConsistent(x)
    ensures var out := Observe(t, x, owned, d, observation, at);
            && BaseConsistent(out.tables)
            && (out.error.None? ==> BaseConsistent(RefreshedFor(out.tables, documents, written, d)))
            && BaseConsistent(Reindexed(out.tables))
  {
    var out := Observe(t, x, owned, d, observation, at);
    ObservationKeepsBase(t, x, owned, d, observation, at);
    IndexIsNotBase(out.tables, RefreshedFor(out.tables, documents, written, d).index);
    IndexIsNotBase(out.tables, Projection(out.tables));
  }

  lemma UpsertDocumentKeepsBase(t: Tables, owned: map<nat, OwnerToken>, input: DocumentInput,
                                observation: Option<Observation>, now: int, observedAt: int)
    requires BaseConsistent(t)
    ensures BaseConsistent(UpsertDocument(t, owned, input, observation, now, observedAt).tables)
  {
    var rows := UpsertDocumentRows(t, input, now);
    if rows.Ok? {
      var w := rows.value;
      var d := ResolvedDocument(w, input);
      UpsertDocumentFacts(t, input, now);
      UpsertKeepsBase(t, w, d);
      FinishedKeepsBase(t, t.(documents := w.documents), owned, d, observation, observedAt, t.documents, w.written);
    }
  }

  lemma TouchKeepsBase(t: Tables, owned: map<nat, OwnerToken>, d: nat, observation: Option<Observation>, now: int)
    requires BaseConsistent(t)
    ensures BaseConsistent(TouchDocument(t, owned, d, observation, now).tables)
  {
    if d in t.documents {
      var x := t.(documents := t.documents[d := t.documents[d].(lastSeenAt := now)]);
      TouchedKeepsBase(t, d, now);
      hide BaseConsistent;
      FinishedKeepsBase(t, x, owned, d, observation, now, t.documents, d);
    }
  }

  lemma TouchedKeepsBase(t: Tables, d: nat, now: int)
    requires BaseConsistent(t) && d in t.documents
    ensures BaseConsistent(t.(documents := t.documents[d := t.documents[d].(lastSeenAt := now)]))
  {
    var documents := t.documents[d := t.documents[d].(lastSeenAt := now)];
    assert UniqueDocuments(documents);
    UpsertKeepsBase(t, DocumentWrite(documents, d), d);
  }

  lemma AddVersionKeepsBase(t: Tables, owned: map<nat, OwnerToken>, input: VersionInput, now: int)
    requires BaseConsistent(t)
    ensures BaseConsistent(AddVersion(t, owned, input, now).tables)
  {
    if input.documentId in t.documents {
      AddedVersionFacts(t.versions, input, now);
      SameFlagsKeepBase(t, AddedVersion(t.versions, input, now).versions, AddedVersion(t.versions, input, now).written);
      var x := t.(versions := AddedVersion(t.versions, input, now).versions);
      IndexIsNotBase(x, Projection(x));
    }
  }

  lemma SameFlagsKeepBase(t: Tables, versions: map<nat, Version>, w: nat)
    requires BaseConsistent(t) && UniqueVersions(versions)
    requires versions.Keys == t.versions.Keys + {w} && versions[w].documentId in t.documents
    requires forall v | v in t.versions && v != w :: versions[v] == t.versions[v]
    requires versions[w].isCurrent ==> !versions[w].pendingCurrent
    requires w in t.versions ==>
               versions[w].documentId == t.versions[w].documentId && versions[w].isCurrent == t.versions[w].isCurrent
    requires w !in t.versions ==> !versions[w].isCurrent
    ensures BaseConsistent(t.(versions := versions))
  {
    hide UniqueSources, UniqueDocuments, UniqueVersions;
  }

  lemma SectionsKeepBase(t: Tables, sections: map<nat, Section>, v: nat)
    requires BaseConsistent(t) && v in t.versions && SectionsReplaced(t.sections, sections, v)
    ensures BaseConsistent(t.(sections := sections))
  {
  }

  lemma ReplaceSectionsKeepsBase(t: Tables, owned: map<nat, OwnerToken>, v: nat, inputs: seq<SectionInput>, now: int)
    requires BaseConsistent(t)
    ensures BaseConsistent(ReplaceSections(t, owned, v, inputs, now).tables)
  {
    hide BaseConsistent, ReferencesResolve, UniqueDocuments, UniqueVersions, PointersMatchFlags, FlagMoved, SectionsReplaced,
         UpsertShape, ReplacedSections, PromotedVersions, PointedTo, Projection, StrandedRows;
    BaseParts(t);
    var rows := ReplacedSections(t.sections, v, inputs);
    if v in t.versions && rows.Ok? {
      ReplacedSectionsFacts(t.sections, v, inputs);
      var replaced := t.(sections := rows.value);
      SectionsKeepBase(t, rows.value, v);
      if t.versions[v].pendingCurrent {
        var d := t.versions[v].documentId;
        var after := replaced.(versions := PromotedVersions(t.versions, v), documents := PointedTo(t.documents, d, v, now));
        PendingPromotes(t, v);
        UpsertedThenPromotedKeepsBase(t, DocumentWrite(t.documents, d), d, after, v, now);
        IndexIsNotBase(after, Projection(after));
      } else {
        IndexIsNotBase(replaced, Projection(replaced) + StrandedRows(t, replaced));
        IndexIsNotBase(replaced, Projection(replaced));
      }
    }
  }

  lemma PendingPromotes(t: Tables, v: nat)
    requires ReferencesResolve(t) && UniqueVersions(t.versions) && v in t.versions
    ensures UniqueVersions(PromotedVersions(t.versions, v))
    ensures FlagMoved(t.versions, PromotedVersions(t.versions, v), t.versions[v].documentId, v)
    ensures UpsertShape(t, DocumentWrite(t.documents, t.versions[v].documentId), t.versions[v].documentId)
  {
    FlagPromoted(t.versions, v);
    PromotedUnique(t.versions, v);
    hide PromotedVersions, FlagMoved, UniqueVersions;
  }

  lemma PromotedUnique(versions: map<nat, Version>, v: nat)
    requires UniqueVersions(versions) && v in versions
    ensures UniqueVersions(PromotedVersions(versions, v))
  {
  }

  lemma SourcesKeepBase(t: Tables, sources: map<nat, Source>)
    requires BaseConsistent(t) && UniqueSources(sources) && t.sources.Keys <= sources.Keys
    ensures BaseConsistent(Reindexed(t.(sources := sources)))
  {
    var x := t.(sources := sources);
    assert ReferencesResolve(x);
    IndexIsNotBase(x, Projection(x));
  }

  lemma PurgeKeepsBase(t: Tables, scope: Option<string>, keep: nat)
    requires BaseConsistent(t)
    ensures BaseConsistent(Purge(t, scope, keep))
  {
    NoPointerIsPurged(t, scope, keep);
    var c := PurgeCandidates(t, scope, keep);
    var x := t.(versions := t.versions - c, sections := t.sections - SectionsOfVersions(t.sections, c));
    assert UniqueVersions(x.versions);
    assert ReferencesResolve(x);
    assert PointersMatchFlags(x.documents, x.versions);
    IndexIsNotBase(x, Projection(x));
  }

  lemma AddSourceKeepsBase(t: Tables, owned: map<nat, OwnerToken>, source: SourceInput, now: int)
    requires BaseConsistent(t)
    ensures BaseConsistent(AddSource(t, owned, source, now).tables)
  {
    var out := AddSource(t, owned, source, now);
    if out.error.None? {
      SourcesKeepBase(t, out.tables.sources);
    }
  }

  lemma UpdateSourceKeepsBase(t: Tables, owned: map<nat, OwnerToken>, source: SourceInput, now: int)
    requires BaseConsistent(t)
    ensures BaseConsistent(UpdateSource(t, owned, source, now).tables)
  {
    var out := UpdateSource(t, owned, source, now);
    if out.error.None? {
      SourcesKeepBase(t, out.tables.sources);
    }
  }

  lemma RunsAreNotBase(t: Tables, runs: map<nat, SyncRun>)
    requires BaseConsistent(t)
    ensures BaseConsistent(t.(runs := runs))
  {
  }

  // Whatever the operation and its input, the base tables stay consistent.
  lemma StepKeepsBase(t: Tables, owned: map<nat, OwnerToken>, op: Op)
    requires BaseConsistent(t)
    ensures BaseConsistent(Apply(t, owned, op).tables)
  {
    hide BaseConsistent, AddSource, UpdateSource, UpsertDocument, Commit, TouchDocument, AddVersion, ReplaceSections, Purge, Observe,
         Projection, InsertRun, CompleteRun, RecoverRuns;
    match op
    case AddSourceOp(source, now) => AddSourceKeepsBase(t, owned, source, now);
    case UpdateSourceOp(source, now) => UpdateSourceKeepsBase(t, owned, source, now);
    case UpsertOp(document, observation, now, observedAt) => UpsertDocumentKeepsBase(t, owned, document, observation, now, observedAt);
    case CommitOp(revision, observation, times) => CommitKeepsBase(t, owned, revision, observation, times);
    case TouchOp(d, observation, now) => TouchKeepsBase(t, owned, d, observation, now);
    case RecordOp(d, o, now) => FinishedKeepsBase(t, t, owned, d, Some(o), now, t.documents, d);
    case AddVersionOp(version, now) => AddVersionKeepsBase(t, owned, version, now);
    case ReplaceSectionsOp(v, sections, now) => ReplaceSectionsKeepsBase(t, owned, v, sections, now);
    case PurgeOp(scope, keep) => PurgeKeepsBase(t, scope, keep);
    case RebuildOp => IndexIsNotBase(t, Projection(t));
    case StartOp(_, _, _, _, _) => RunsAreNotBase(t, Apply(t, owned, op).tables.runs);
    case CompleteOp(r, input) => RunsAreNotBase(t, CompleteRun(t.runs, owned, r, input).runs);
    case RecoverOp(candidates, now) => RunsAreNotBase(t, RecoverRuns(t.runs, candidates, now));
  }
}
