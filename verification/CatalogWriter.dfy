// The revision writer: every transaction changes the tables statement by statement and keeps the
// full-text index by deleting and inserting the rows of one document.
module CatalogWriter {
  import opened Prelude
  import opened CatalogTables
  import opened CatalogInvariant
  import opened CatalogObservations
  import opened CatalogTransactions
  import opened CatalogIndexing
  import opened CatalogSearch
  import opened CatalogStores

  class RevisionWriter {
    const database: CatalogDatabase
    const syncStore: SyncStore

    // Writer and store share one connection.
    ghost predicate Wired() {
      syncStore.database == database
    }

    constructor (database: CatalogDatabase, syncStore: SyncStore)
      ensures this.database == database && this.syncStore == syncStore
    {
      this.database := database;
      this.syncStore := syncStore;
    }

    /*** Statements ***/

    method UpsertDocumentRow(input: DocumentInput, now: int) returns (r: Result<nat>)
      requires ReferencesResolve(database.Tables()) && UniqueDocuments(database.documents)
      modifies database`documents
      ensures match UpsertDocumentRows(old(database.Tables()), input, now)
              case Err(e) => r == Err(e) && database.documents == old(database.documents)
              case Ok(write) => r == Ok(ResolvedDocument(write, input)) && database.documents == write.documents
    {
      ghost var t := database.Tables();
      UpsertDocumentFacts(t, input, now);
      var matches := DocumentsByKey(database.documents, input.sourceId, input.stableKey);
      var written: nat;
      if matches != {} {
        written :| written in matches;
        if UrlConflicts(database.documents, input, {written}) != {} {
          return Err(ConstraintViolation);
        }
        database.documents := database.documents[written := UpdatedDocument(database.documents[written], input, now)];
      } else {
        if input.sourceId !in database.sources || DocumentsByPublicId(database.documents, input.publicId) != {}
           || UrlConflicts(database.documents, input, {}) != {} {
          return Err(ConstraintViolation);
        }
        written := AllocateRowId(database.documents.Keys);
        database.documents := database.documents[written := NewDocument(input, now)];
      }
      assert UpsertDocumentRows(t, input, now) == Ok(DocumentWrite(database.documents, written));
      var named := DocumentsByPublicId(database.documents, input.publicId);
      if named != {} {
        var d :| d in named;
        return Ok(d);
      }
      return Ok(written);
    }

    method UpsertDocumentVersionRow(input: VersionInput, fetchedAt: int, pendingCurrent: bool) returns (v: nat)
      requires UniqueVersions(database.versions)
      modifies database`versions
      ensures var write := UpsertVersionRow(old(database.versions), input, fetchedAt, pendingCurrent);
              v == write.written && database.versions == write.versions
    {
      UpsertVersionFacts(database.versions, input, fetchedAt, pendingCurrent);
      var matches := VersionsByHash(database.versions, input.documentId, input.contentHash);
      if matches != {} {
        v :| v in matches;
      } else {
        v := AllocateRowId(database.versions.Keys);
      }
      database.versions := database.versions[v := VersionRow(input, fetchedAt, pendingCurrent)];
    }

    // The unique index on (version, ordinal) refuses a repeated ordinal.
    method InsertSection(versionId: nat, input: SectionInput) returns (error: Option<CatalogError>)
      modifies database`sections
      ensures input.ordinal in StoredOrdinals(old(database.sections), versionId) ==>
                error == Some(ConstraintViolation) && database.sections == old(database.sections)
      ensures input.ordinal !in StoredOrdinals(old(database.sections), versionId) ==>
                && error.None?
                && database.sections == old(database.sections)[NextRowId(old(database.sections).Keys) := SectionRow(versionId, input)]
    {
      error := None;
      if input.ordinal in StoredOrdinals(database.sections, versionId) {
        error := Some(ConstraintViolation);
      } else {
        var id := AllocateRowId(database.sections.Keys);
        database.sections := database.sections[id := SectionRow(versionId, input)];
      }
    }

    method ReplaceDocumentSectionRows(versionId: nat, inputs: seq<SectionInput>) returns (error: Option<CatalogError>)
      modifies database`sections
      ensures match ReplacedSections(old(database.sections), versionId, inputs)
              case Err(e) => error == Some(e)
              case Ok(sections) => error.None? && database.sections == sections
    {
      error := None;
      if |inputs| > MAX_PERSISTED_DOCUMENT_SECTIONS {
        return Some(SectionLimitExceeded);
      }
      database.sections := SectionsWithout(database.sections, versionId);
      error := InsertSections(versionId, inputs);
    }

    method InsertSections(versionId: nat, inputs: seq<SectionInput>) returns (error: Option<CatalogError>)
      requires forall s | s in database.sections :: database.sections[s].versionId != versionId
      modifies database`sections
      ensures error == if DistinctOrdinals(inputs) then None else Some(ConstraintViolation)
      ensures error.None? ==>
                database.sections == old(database.sections) + NumberedSections(NextRowId(old(database.sections).Keys), versionId, inputs)
    {
      ghost var kept := database.sections;
      ghost var first := NextRowId(kept.Keys);
      hide DistinctOrdinals, StoredOrdinals;
      error := None;
      EmptyLoop(kept, first, versionId, inputs);
      for i := 0 to |inputs|
        invariant error.None? && DistinctOrdinals(inputs[..i])
        invariant database.sections == kept + NumberedSections(first, versionId, inputs[..i])
      {
        error := InsertSection(versionId, inputs[i]);
        RefusedInsert(kept, first, versionId, inputs, i);
        if error.Some? {
          return;
        }
        NextInsert(kept, first, versionId, inputs, i);
      }
      assert inputs[..|inputs|] == inputs;
    }

    static lemma EmptyLoop(kept: map<nat, Section>, first: nat, versionId: nat, inputs: seq<SectionInput>)
      ensures DistinctOrdinals(inputs[..0]) && kept == kept + NumberedSections(first, versionId, inputs[..0])
    {
    }

    static lemma NextInsert(kept: map<nat, Section>, first: nat, versionId: nat, inputs: seq<SectionInput>, i: nat)
      requires i < |inputs| && first == NextRowId(kept.Keys)
      ensures var so := kept + NumberedSections(first, versionId, inputs[..i]);
              so[NextRowId(so.Keys) := SectionRow(versionId, inputs[i])] == kept + NumberedSections(first, versionId, inputs[..i + 1])
    {
      hide NumberedSections;
      NumberedRowId(kept, first, versionId, inputs[..i]);
      OneMoreNumbered(first, versionId, inputs, i);
      UpdateOfUnion(kept, NumberedSections(first, versionId, inputs[..i]), first + i, SectionRow(versionId, inputs[i]));
    }

    static lemma OneMoreNumbered(first: nat, versionId: nat, inputs: seq<SectionInput>, i: nat)
      requires i < |inputs|
      ensures NumberedSections(first, versionId, inputs[..i + 1])
              == NumberedSections(first, versionId, inputs[..i])[first + i := SectionRow(versionId, inputs[i])]
    {
      var longer := inputs[..i + 1];
      assert longer[..i] == inputs[..i] && longer[i] == inputs[i];
    }

    static lemma RefusedInsert(kept: map<nat, Section>, first: nat, versionId: nat, inputs: seq<SectionInput>, i: nat)
      requires i < |inputs| && DistinctOrdinals(inputs[..i])
      requires forall s | s in kept :: kept[s].versionId != versionId
      ensures inputs[i].ordinal in StoredOrdinals(kept + NumberedSections(first, versionId, inputs[..i]), versionId)
              <==> !DistinctOrdinals(inputs[..i + 1])
      ensures !DistinctOrdinals(inputs[..i + 1]) ==> !DistinctOrdinals(inputs)
    {
      StoredSoFar(kept, first, versionId, inputs[..i]);
      DistinctSoFar(inputs, i);
    }

    static lemma UpdateOfUnion(m: map<nat, Section>, n: map<nat, Section>, k: nat, row: Section)
      ensures m + n[k := row] == (m + n)[k := row]
    {
    }

    static lemma StoredSoFar(kept: map<nat, Section>, first: nat, versionId: nat, inputs: seq<SectionInput>)
      requires forall s | s in kept :: kept[s].versionId != versionId
      ensures forall o :: o in StoredOrdinals(kept + NumberedSections(first, versionId, inputs), versionId)
                          <==> exists j :: 0 <= j < |inputs| && inputs[j].ordinal == o
    {
      hide NumberedSections;
      var rows := kept + NumberedSections(first, versionId, inputs);
      NumberedRows(first, versionId, inputs);
      assert forall s :: s in rows ==> rows[s] == if first <= s < first + |inputs| then SectionRow(versionId, inputs[s - first]) else kept[s];
      forall j | 0 <= j < |inputs|
        ensures inputs[j].ordinal in StoredOrdinals(rows, versionId)
      {
        assert rows[first + j] == SectionRow(versionId, inputs[j]);
      }
    }

    static lemma DistinctSoFar(inputs: seq<SectionInput>, i: nat)
      requires i < |inputs| && DistinctOrdinals(inputs[..i])
      ensures DistinctOrdinals(inputs[..i + 1]) <==>
                !exists j :: 0 <= j < i && inputs[..i][j].ordinal == inputs[i].ordinal
      ensures !DistinctOrdinals(inputs[..i + 1]) ==> !DistinctOrdinals(inputs)
    {
      var longer := inputs[..i + 1];
      assert forall j :: 0 <= j < i ==> longer[j] == inputs[..i][j] == inputs[j];
      assert longer[i] == inputs[i];
    }

    // Each insert gets the row id after the last.
    static lemma NumberedRowId(kept: map<nat, Section>, first: nat, versionId: nat, inputs: seq<SectionInput>)
      requires first == NextRowId(kept.Keys)
      ensures NextRowId((kept + NumberedSections(first, versionId, inputs)).Keys) == first + |inputs|
    {
      var rows := kept + NumberedSections(first, versionId, inputs);
      NumberedRows(first, versionId, inputs);
      if inputs == [] {
        assert rows == kept;
      } else {
        assert first + |inputs| - 1 in rows;
      }
    }

    method DeleteIndexByDocument(documentId: nat)
      modifies database`index
      ensures database.index == old(database.index) - DocumentSections(database.Tables(), documentId)
    {
      database.index := database.index - DocumentSections(database.Tables(), documentId);
    }

    // The index refuses a row id that it has already.
    method InsertVersionIndex(versionId: nat) returns (error: Option<CatalogError>)
      modifies database`index
      ensures var added := VersionProjection(old(database.Tables()), versionId);
              if old(database.index).Keys !! added.Keys then error.None? && database.index == old(database.index) + added
              else error == Some(ConstraintViolation) && database.index == old(database.index)
    {
      var added := VersionProjection(database.Tables(), versionId);
      if exists s :: s in added && s in database.index {
        return Some(ConstraintViolation);
      }
      database.index := database.index + added;
      error := None;
    }

    // The index statements of an upsert, once the document row is written.
    method RefreshDocumentIndex(d: nat, ghost t: Tables, ghost write: DocumentWrite) returns (error: Option<CatalogError>)
      requires ReferencesResolve(t) && PointersMatchFlags(t.documents, t.versions) && UpsertShape(t, write, d)
      requires database.Tables() == t.(documents := write.documents)
      modifies database`index
      ensures var x := t.(documents := write.documents);
              && error.None?
              && database.Tables() == x.(index := Carried(t, RefreshedFor(x, t.documents, write.written, d).index, DocumentSections(t, d)))
    {
      UpsertIndex(t, write, d);
      error := None;
      DeleteIndexByDocument(d);
      if database.documents[d].currentVersion.Some? {
        ghost var v := database.documents[d].currentVersion.value;
        SameVersionProjection(database.Tables(), t.(documents := write.documents), v);
        error := InsertVersionIndex(database.documents[d].currentVersion.value);
      }
    }

    /*** Transactions ***/

    method UpsertDocument(input: DocumentInput, observation: Option<Observation>, now: int, observedAt: int)
      returns (error: Option<CatalogError>)
      requires Wired() && BaseConsistent(database.Tables())
      modifies database, syncStore`ownedRuns
      ensures var t := old(database.Tables());
              var out := CatalogTransactions.UpsertDocument(t, old(syncStore.ownedRuns), input, observation, now, observedAt);
              && database.Tables() == Left(t, out, ClearedFor(t, input, now))
              && syncStore.ownedRuns == out.owned && error == out.error
    {
      var snapshot := database.Tables();
      hide Carried, UpsertShape, BaseConsistent, UniqueDocuments, PointersMatchFlags, ReferencesResolve, Observe, RefreshedFor,
           UpsertDocumentRows, ResolvedDocument;
      BaseParts(snapshot);
      UpsertDocumentFacts(snapshot, input, now);
      var row := UpsertDocumentRow(input, now);
      if row.Err? {
        database.Restore(snapshot);
        return Some(row.error);
      }
      var d := row.value;
      ghost var write := UpsertDocumentRows(snapshot, input, now).value;
      error := RefreshDocumentIndex(d, snapshot, write);
      RefreshAfterObservation(snapshot, snapshot.(documents := write.documents), write.written, syncStore.ownedRuns,
                              d, observation, observedAt, DocumentSections(snapshot, d));
      if error.None? {
        error := syncStore.PersistObservation(d, observation, observedAt);
      }
      if error.Some? {
        database.Restore(snapshot);
      }
    }

    // A commit's changes of the base tables, but for the pointer.
    method StoreRows(d: nat, revision: RevisionInput, times: CommitTimes) returns (v: nat, error: Option<CatalogError>)
      requires UniqueVersions(database.versions)
      modifies database`versions, database`sections
      ensures match RevisionRows(old(database.Tables()), old(database.documents), d, revision, times)
              case Err(e) => error == Some(e)
              case Ok(rows) =>
                && error.None? && v == RevisionVersion(old(database.versions), d, revision, times)
                && database.versions == rows.versions && database.sections == rows.sections
    {
      ClearedFacts(database.versions, d);
      database.versions := ClearCurrentVersions(database.versions, d);
      v := UpsertDocumentVersionRow(revision.version.(documentId := d, isCurrent := true), times.version, false);
      error := ReplaceDocumentSectionRows(v, revision.sections);
    }

    static lemma RevisionTables(t: Tables, d: nat, revision: RevisionInput, times: CommitTimes)
      ensures var r := RevisionRows(t, t.documents, d, revision, times);
              r.Ok? ==>
                var v := RevisionVersion(t.versions, d, revision, times);
                r.value == t.(versions := r.value.versions, sections := r.value.sections, documents := PointedTo(t.documents, d, v, times.pointer))
    {
      hide ReplacedSections, UpsertVersionRow, ClearCurrentVersions, PointedTo;
    }

    // A commit's statements between the document upsert and the observation.
    method StoreRevision(d: nat, revision: RevisionInput, times: CommitTimes) returns (error: Option<CatalogError>)
      requires UniqueVersions(database.versions)
      modifies database
      ensures match RevisionRows(old(database.Tables()), old(database.documents), d, revision, times)
              case Err(e) => error == Some(e)
              case Ok(rows) =>
                var kept := old(database.index) - DocumentSections(old(database.Tables()), d);
                var added := VersionProjection(rows.(documents := old(database.documents)),
                                               RevisionVersion(old(database.versions), d, revision, times));
                if kept.Keys !! added.Keys then error.None? && database.Tables() == rows.(index := kept + added)
                else error == Some(ConstraintViolation)
    {
      hide RevisionRows, RevisionVersion, UniqueVersions, DocumentSections, VersionProjection, PointedTo;
      ghost var t := database.Tables();
      ghost var rows := RevisionRows(t, t.documents, d, revision, times);
      RevisionTables(t, d, revision, times);
      DeleteIndexByDocument(d);
      SameSectionsOfDocument(t, database.Tables(), d);
      OtherIndexRows(t, database.index, d, revision, times);
      var v;
      v, error := StoreRows(d, revision, times);
      if error.Some? {
        return;
      }
      SameVersionProjection(database.Tables(), rows.value.(documents := t.documents), v);
      error := InsertVersionIndex(v);
      if error.None? {
        database.documents := PointedTo(database.documents, d, v, times.pointer);
      }
    }

    // The rows written do not depend on the index.
    static lemma OtherIndexRows(t: Tables, index: map<nat, IndexRow>, d: nat, revision: RevisionInput, times: CommitTimes)
      ensures match RevisionRows(t, t.documents, d, revision, times)
              case Err(e) => RevisionRows(t.(index := index), t.documents, d, revision, times) == Err(e)
              case Ok(rows) => RevisionRows(t.(index := index), t.documents, d, revision, times) == Ok(rows.(index := index))
    {
    }

    method WriteRevision(d: nat, revision: RevisionInput, times: CommitTimes, ghost t: Tables, ghost write: DocumentWrite)
      returns (error: Option<CatalogError>)
      requires ReferencesResolve(t) && UniqueVersions(t.versions) && UpsertShape(t, write, d)
      requires database.Tables() == t.(documents := write.documents)
      modifies database
      ensures match RevisionRows(t, write.documents, d, revision, times)
              case Err(e) => error == Some(e)
              case Ok(committed) =>
                if Collides(t, write, d, revision, times) then error == Some(ConstraintViolation)
                else
                  && error.None?
                  && database.Tables() == committed.(index := Carried(t, RefreshedFor(committed, t.documents, write.written, d).index,
                                                                       DocumentSections(t, d)))
    {
      RevisionIndex(t, write, d, revision, times);
      SameSectionsOfDocument(t, t.(documents := write.documents), d);
      OtherDocumentRows(t, write.documents, d, revision, times);
      hide RevisionRows, RevisionVersion, Carried, VersionProjection, DocumentSections, RefreshedFor, UpsertShape, ReferencesResolve,
           UniqueVersions;
      error := StoreRevision(d, revision, times);
    }

    static lemma OtherDocumentRows(t: Tables, documents: map<nat, Document>, d: nat, revision: RevisionInput, times: CommitTimes)
      ensures RevisionRows(t.(documents := documents), documents, d, revision, times) == RevisionRows(t, documents, d, revision, times)
    {
    }

    method Commit(revision: RevisionInput, observation: Option<Observation>, times: CommitTimes)
      returns (error: Option<CatalogError>)
      requires Wired() && BaseConsistent(database.Tables())
      modifies database, syncStore`ownedRuns
      ensures var t := old(database.Tables());
              var out := CatalogTransactions.Commit(t, old(syncStore.ownedRuns), revision, observation, times);
              if CommitCollides(t, revision, times)
              then database.Tables() == t && syncStore.ownedRuns == old(syncStore.ownedRuns) && error == Some(ConstraintViolation)
              else && database.Tables() == Left(t, out, ClearedFor(t, revision.document, times.document))
                   && syncStore.ownedRuns == out.owned && error == out.error
      ensures error.None? && NamedOnce(old(database.Tables()), revision.document) && revision.document.status.Active?
              && EnabledSource(old(database.Tables()), revision.document.sourceId) ==>
                exists d, first :: PageHeld(database.Tables(), d, first, revision) && PageShown(database.Tables(), d, first, revision)
    {
      hide PageHeld, PageShown, NamedOnce, EnabledSource, DocumentSections, Projection, DocumentsByPublicId, RevisionVersion, VersionProjection;
      CommittedIsShown(database.Tables(), syncStore.ownedRuns, revision, observation, times);
      if |revision.sections| == 0 {
        return Some(RevisionRequiresSections);
      }
      var snapshot := database.Tables();
      hide Carried, UpsertShape, BaseConsistent, UniqueDocuments, UniqueVersions, ReferencesResolve, Observe, RefreshedFor, RevisionRows,
           UpsertDocumentRows, ResolvedDocument, Collides;
      BaseParts(snapshot);
      UpsertDocumentFacts(snapshot, revision.document, times.document);
      var row := UpsertDocumentRow(revision.document, times.document);
      if row.Err? {
        database.Restore(snapshot);
        return Some(row.error);
      }
      var d := row.value;
      ghost var write := UpsertDocumentRows(snapshot, revision.document, times.document).value;
      error := WriteRevision(d, revision, times, snapshot, write);
      if error.Some? {
        database.Restore(snapshot);
        return;
      }
      ghost var committed := RevisionRows(snapshot, write.documents, d, revision, times).value;
      RefreshAfterObservation(snapshot, committed, write.written, syncStore.ownedRuns, d, observation, times.pointer,
                              DocumentSections(snapshot, d));
      SamePublicIds(snapshot, committed, syncStore.ownedRuns, d, observation, times.pointer, revision.document.publicId);
      error := syncStore.PersistObservation(d, observation, times.pointer);
      if error.None? && DocumentsByPublicId(database.documents, revision.document.publicId) == {} {
        error := Some(CommitFailed);
      }
      if error.Some? {
        database.Restore(snapshot);
      }
    }

    static lemma CommittedIsShown(t: Tables, owned: map<nat, OwnerToken>, revision: RevisionInput, observation: Option<Observation>,
                                  times: CommitTimes)
      requires BaseConsistent(t)
      ensures var out := CatalogTransactions.Commit(t, owned, revision, observation, times);
              var u := Left(t, out, ClearedFor(t, revision.document, times.document));
              out.error.None? && !CommitCollides(t, revision, times) && NamedOnce(t, revision.document)
              && revision.document.status.Active? && EnabledSource(t, revision.document.sourceId) ==>
                exists d, first :: PageHeld(u, d, first, revision) && PageShown(u, d, first, revision)
    {
      hide BaseConsistent, CommitCollides, ClearedFor, PageHeld, PageShown, NamedOnce, CatalogTransactions.Commit;
      if NamedOnce(t, revision.document) && revision.document.status.Active? && EnabledSource(t, revision.document.sourceId) {
        CommittedPagesAreShown(t, owned, revision, observation, times);
      }
    }

    // An observation changes no document row.
    static lemma SamePublicIds(t: Tables, x: Tables, owned: map<nat, OwnerToken>, d: nat, observation: Option<Observation>, at: int,
                               publicId: string)
      ensures var out := Observe(t, x, owned, d, observation, at);
              out.error.None? ==> out.tables.documents == x.documents
    {
    }

    method TouchDocumentObservation(documentId: nat, observation: Option<Observation>, now: int)
      returns (error: Option<CatalogError>)
      requires Wired()
      modifies database, syncStore`ownedRuns
      ensures var t := old(database.Tables());
              var out := TouchDocument(t, old(syncStore.ownedRuns), documentId, observation, now);
              && database.Tables() == Left(t, out, {}) && database.index == old(database.index)
              && syncStore.ownedRuns == out.owned && error == out.error
    {
      if documentId !in database.documents {
        return Some(DocumentNotFound);
      }
      var snapshot := database.Tables();
      database.documents := database.documents[documentId := database.documents[documentId].(lastSeenAt := now)];
      TouchKeepsProjection(snapshot, documentId, now);
      ObservedIndex(snapshot, database.Tables(), syncStore.ownedRuns, documentId, observation, now);
      hide Carried, Projection, Observe;
      error := syncStore.PersistObservation(documentId, observation, now);
      if error.Some? {
        database.Restore(snapshot);
      }
    }

    // An observation over tables that would be indexed as before leaves the index as it is.
    static lemma ObservedIndex(t: Tables, x: Tables, owned: map<nat, OwnerToken>, d: nat, observation: Option<Observation>, at: int)
      requires Projection(x) == Projection(t) && x.index == t.index
      ensures var spec, done := Observe(t, x, owned, d, observation, at), Observe(x, x, owned, d, observation, at);
              && spec.error == done.error && spec.owned == done.owned
              && (spec.error.Some? ==> spec.tables == t)
              && (spec.error.None? ==>
                    && spec.tables == done.tables && spec.tables.index == t.index
                    && spec.tables.(index := Carried(t, Reindexed(spec.tables).index, {})) == done.tables)
    {
      hide Projection, Carried;
      var spec := Observe(t, x, owned, d, observation, at);
      if spec.error.None? {
        if observation.Some? {
          ObservedKeepsCatalog(x, d, observation.value, at);
        }
        NothingCleared(t, spec.tables);
      }
    }

    method RecordDocumentObservation(documentId: nat, observation: Observation, now: int)
      returns (error: Option<CatalogError>)
      requires Wired()
      modifies database, syncStore`ownedRuns
      ensures var t := old(database.Tables());
              var out := RecordObservation(t, old(syncStore.ownedRuns), documentId, observation, now);
              && database.Tables() == Left(t, out, {}) && database.index == old(database.index)
              && syncStore.ownedRuns == out.owned && error == out.error
    {
      if documentId !in database.documents {
        return Some(DocumentNotFound);
      }
      var snapshot := database.Tables();
      ObservedIndex(snapshot, snapshot, syncStore.ownedRuns, documentId, Some(observation), now);
      hide Carried, Projection, Observe;
      error := syncStore.PersistObservation(documentId, Some(observation), now);
      if error.Some? {
        database.Restore(snapshot);
      }
    }

    method AddDocumentVersion(input: VersionInput, now: int) returns (error: Option<CatalogError>)
      requires BaseConsistent(database.Tables())
      modifies database`versions
      ensures var t := old(database.Tables());
              var out := AddVersion(t, syncStore.ownedRuns, input, now);
              database.Tables() == Left(t, out, {}) && error == out.error
    {
      if input.documentId !in database.documents {
        return Some(ConstraintViolation);
      }
      error := None;
      ghost var t := database.Tables();
      AddedVersionIndex(t, input, now);
      hide Carried, Projection, BaseConsistent;
      BaseParts(t);
      var flagged := set v | v in VersionsByHash(database.versions, input.documentId, input.contentHash)
                             && database.versions[v].isCurrent;
      if flagged != {} {
        var v :| v in flagged;
        var _ := UpsertDocumentVersionRow(input.(isCurrent := true), now, false);
      } else {
        assert forall v :: v in VersionsByHash(t.versions, input.documentId, input.contentHash) ==> v !in flagged;
        var _ := UpsertDocumentVersionRow(input.(isCurrent := false), now, input.isCurrent);
      }
    }

    static lemma AddedVersionIndex(t: Tables, input: VersionInput, now: int)
      requires BaseConsistent(t) && input.documentId in t.documents
      ensures var u := t.(versions := AddedVersion(t.versions, input, now).versions);
              Carried(t, Projection(u), {}) == t.index
    {
      hide Carried, Projection, AddedVersion;
      AddedVersionFacts(t.versions, input, now);
      var w := AddedVersion(t.versions, input, now);
      SameFlagSameProjection(t, t.(versions := w.versions), w.written);
      NothingCleared(t, t.(versions := w.versions));
    }

    method ReplaceDocumentSections(versionId: nat, inputs: seq<SectionInput>, now: int) returns (error: Option<CatalogError>)
      requires BaseConsistent(database.Tables())
      modifies database
      ensures var t := old(database.Tables());
              var out := ReplaceSections(t, syncStore.ownedRuns, versionId, inputs, now);
              database.Tables() == Left(t, out, ClearedByReplacement(t, versionId, inputs)) && error == out.error
    {
      if versionId !in database.versions {
        return Some(VersionNotFound);
      }
      var version := database.versions[versionId];
      if (version.pendingCurrent || version.isCurrent) && |inputs| == 0 {
        return Some(RevisionRequiresSections);
      }
      var snapshot := database.Tables();
      hide Carried, Projection, BaseConsistent, ReferencesResolve, PointersMatchFlags, ReplacedSections, SectionsReplaced, PromotedVersions,
           StrandedRows;
      BaseParts(snapshot);
      ReplacedSectionsFacts(snapshot.sections, versionId, inputs);
      error := ReplaceDocumentSectionRows(versionId, inputs);
      if error.Some? {
        database.Restore(snapshot);
        return;
      }
      if version.pendingCurrent {
        PendingIsNotFlagged(snapshot, versionId);
        error := PromotePending(versionId, now, snapshot);
      } else if version.isCurrent {
        error := ReindexCurrent(versionId, snapshot);
      } else {
        ReplacingOldSections(snapshot, database.Tables(), versionId);
        NothingCleared(snapshot, database.Tables());
      }
    }

    static lemma PendingIsNotFlagged(t: Tables, v: nat)
      requires PointersMatchFlags(t.documents, t.versions) && v in t.versions && t.versions[v].pendingCurrent
      ensures !t.versions[v].isCurrent
    {
    }

    method ReindexCurrent(versionId: nat, ghost t: Tables) returns (error: Option<CatalogError>)
      requires ReferencesResolve(t) && PointersMatchFlags(t.documents, t.versions)
      requires versionId in t.versions && t.versions[versionId].isCurrent && SectionsReplaced(t.sections, database.sections, versionId)
      requires database.Tables() == t.(sections := database.sections)
      modifies database`index
      ensures var replaced := t.(sections := database.sections);
              var cleared := DocumentSections(replaced, t.versions[versionId].documentId);
              && error.None?
              && database.Tables() == replaced.(index := Carried(t, Projection(replaced) + StrandedRows(t, replaced), cleared))
    {
      ghost var replaced := database.Tables();
      ReplacingCurrentSections(t, replaced, versionId);
      hide Carried, Projection, ReferencesResolve, PointersMatchFlags, SectionsReplaced, VersionProjection, DocumentSections, StrandedRows;
      var d := database.versions[versionId].documentId;
      DeleteIndexByDocument(d);
      SameSectionsOfDocument(replaced, database.Tables(), d);
      SameVersionProjection(database.Tables(), replaced, versionId);
      error := InsertVersionIndex(versionId);
    }

    method PromotePending(versionId: nat, now: int, ghost t: Tables) returns (error: Option<CatalogError>)
      requires ReferencesResolve(t) && versionId in t.versions && !t.versions[versionId].isCurrent
      requires SectionsReplaced(t.sections, database.sections, versionId)
      requires database.Tables() == t.(sections := database.sections)
      modifies database
      ensures var d := t.versions[versionId].documentId;
              var replaced := t.(sections := old(database.sections));
              var done := replaced.(versions := PromotedVersions(t.versions, versionId), documents := PointedTo(t.documents, d, versionId, now));
              error.None? && database.Tables() == done.(index := Carried(t, Projection(done), DocumentSections(replaced, d)))
    {
      var d := database.versions[versionId].documentId;
      PendingPromotion(t, database.sections, versionId, now);
      hide Carried, Projection, ReferencesResolve, SectionsReplaced, VersionProjection, DocumentSections;
      DeleteIndexByDocument(d);
      database.versions := ClearCurrentVersions(database.versions, d);
      database.versions := database.versions[versionId := database.versions[versionId].(isCurrent := true, pendingCurrent := false)];
      SameVersionProjection(database.Tables(),
        t.(sections := database.sections, versions := PromotedVersions(t.versions, versionId)), versionId);
      error := InsertVersionIndex(versionId);
      database.documents := PointedTo(database.documents, d, versionId, now);
    }
  }
}
