// What a successful transaction leaves behind, read back from the tables, and what it does not touch.
module CatalogEffects {
  import opened Prelude
  import opened CatalogTables
  import opened CatalogInvariant
  import opened CatalogObservations
  import opened CatalogTransactions
  import opened CatalogIndexing
  import opened CatalogAgreement
  import opened CatalogRuns

  /*** Reading a document back ***/

  // Row a says what the input said; one that was there had its key, and keeps its own public id and
  // its first-seen time.
  predicate RowUpserted(t: Tables, u: Tables, a: nat, input: DocumentInput, now: int) {
    && a in u.documents
    && var row := u.documents[a];
       && row.sourceId == input.sourceId && row.stableKey == input.stableKey && row.canonicalUrl == input.canonicalUrl
       && row.title == input.title && row.language == input.language && row.status == input.status && row.lastSeenAt == now
       && (a in t.documents ==> t.documents[a].sourceId == input.sourceId && t.documents[a].stableKey == input.stableKey)
       && row.publicId == (if a in t.documents then t.documents[a].publicId else input.publicId)
       && row.firstSeenAt == (if a in t.documents then t.documents[a].firstSeenAt else now)
  }

  predicate StoredFrom(sections: map<nat, Section>, v: nat, inputs: seq<SectionInput>, first: nat) {
    && (forall s | s in sections :: sections[s].versionId == v <==> first <= s < first + |inputs|)
    && (forall i :: 0 <= i < |inputs| ==>
          first + i in sections && sections[first + i] == Section(v, inputs[i].ordinal, inputs[i].heading, inputs[i].headingPath, inputs[i].content))
  }

  // The version's sections are exactly the inputs, one row each.
  ghost predicate StoresSections(sections: map<nat, Section>, v: nat, inputs: seq<SectionInput>) {
    exists first: nat :: StoredFrom(sections, v, inputs, first)
  }

  // The version row carries the revision's metadata; validators may have been refreshed since.
  predicate StoresVersion(row: Version, d: nat, input: VersionInput, refreshed: Option<Validators>) {
    && row.documentId == d && row.contentHash == input.contentHash && row.metadata == input.metadata
    && row.isCurrent && !row.pendingCurrent
    && row.etag == (if refreshed.Some? && refreshed.value.etag.Some? then refreshed.value.etag else input.etag)
    && row.lastModified == (if refreshed.Some? && refreshed.value.lastModified.Some? then refreshed.value.lastModified
                            else input.lastModified)
  }

  // The document with the revision's public id has it as its current version.
  ghost predicate ReadsBack(t: Tables, d: nat, revision: RevisionInput, times: CommitTimes, refreshed: Option<Validators>) {
    && d in t.documents && t.documents[d].publicId == revision.document.publicId && t.documents[d].currentVersion.Some?
    && t.documents[d].updatedAt == times.pointer
    && var v := t.documents[d].currentVersion.value;
       && v in t.versions && StoresVersion(t.versions[v], d, revision.version, refreshed)
       && t.versions[v].fetchedAt == (if refreshed.Some? then times.pointer else times.version)
       && StoresSections(t.sections, v, revision.sections)
  }

  // The observation's run was heard from, its aliases and events are recorded for the document;
  // without an observation nothing is.
  predicate Recorded(before: Tables, after: Tables, d: nat, observation: Option<Observation>, at: int) {
    match observation
    case None => after.runs == before.runs && after.aliases == before.aliases && after.events == before.events
    case Some(o) =>
      && o.runId in before.runs && o.runId in after.runs
      && after.runs == before.runs[o.runId := after.runs[o.runId]]
      && after.runs[o.runId] == before.runs[o.runId].(heartbeatAt := Some(at))
      && after.aliases == UpsertAliases(before.aliases, d, o.aliases, at)
      && |after.events| == |before.events| + |o.events| && before.events <= after.events
      && forall i :: 0 <= i < |o.events| ==>
           after.events[|before.events| + i]
           == StalenessEvent(d, o.runId, o.events[i].eventType, at, o.events[i].details)
  }

  lemma ReplacedSectionsStore(sections: map<nat, Section>, v: nat, inputs: seq<SectionInput>)
    requires ReplacedSections(sections, v, inputs).Ok?
    ensures StoresSections(ReplacedSections(sections, v, inputs).value, v, inputs)
  {
    var kept := SectionsWithout(sections, v);
    var first := NextRowId(kept.Keys);
    NumberedRows(first, v, inputs);
    UnionStores(kept, NumberedSections(first, v, inputs), v, inputs, first);
  }

  lemma UnionStores(kept: map<nat, Section>, rows: map<nat, Section>, v: nat, inputs: seq<SectionInput>, first: nat)
    requires forall s | s in kept :: s < first && kept[s].versionId != v
    requires forall s :: s in rows <==> first <= s < first + |inputs|
    requires forall s | s in rows :: rows[s] == SectionRow(v, inputs[s - first])
    ensures StoredFrom(kept + rows, v, inputs, first)
  {
    forall i | 0 <= i < |inputs|
      ensures first + i in kept + rows && (kept + rows)[first + i] == SectionRow(v, inputs[i])
    {
      assert first + i in rows;
    }
  }

  function RefreshedValidators(observation: Option<Observation>): Option<Validators> {
    if observation.Some? then observation.value.validators else None
  }

  lemma RevisionReadsBack(t: Tables, w: DocumentWrite, d: nat, revision: RevisionInput, times: CommitTimes)
    requires UniqueVersions(t.versions) && d in w.documents && w.documents[d].publicId == revision.document.publicId
    requires RevisionRows(t, w.documents, d, revision, times).Ok?
    ensures ReadsBack(RevisionRows(t, w.documents, d, revision, times).value, d, revision, times, None)
  {
    hide UniqueVersions;
    var x := RevisionRows(t, w.documents, d, revision, times).value;
    var v := RevisionVersion(t.versions, d, revision, times);
    ClearedFacts(t.versions, d);
    UpsertVersionFacts(ClearCurrentVersions(t.versions, d), revision.version.(documentId := d, isCurrent := true), times.version, false);
    ReplacedSectionsStore(t.sections, v, revision.sections);
  }

  lemma ObservedReadsBack(before: Tables, x: Tables, owned: map<nat, OwnerToken>, d: nat, revision: RevisionInput,
                          observation: Option<Observation>, times: CommitTimes)
    requires ReadsBack(x, d, revision, times, None) && Observe(before, x, owned, d, observation, times.pointer).error.None?
    ensures ReadsBack(Observe(before, x, owned, d, observation, times.pointer).tables, d, revision, times, RefreshedValidators(observation))
    ensures Recorded(x, Observe(before, x, owned, d, observation, times.pointer).tables, d, observation, times.pointer)
  {
    hide StoresSections;
  }

  lemma ReindexedReadsBack(u: Tables, index: map<nat, IndexRow>, d: nat, revision: RevisionInput,
                           times: CommitTimes, refreshed: Option<Validators>)
    requires ReadsBack(u, d, revision, times, refreshed)
    ensures ReadsBack(u.(index := index), d, revision, times, refreshed)
  {
  }

  lemma ReindexedOutside(t: Tables, u: Tables, documents: map<nat, Document>, index: map<nat, IndexRow>, a: nat, d: nat)
    requires SameOutsideDocument(t, AsRefreshed(u, documents, a, d), d)
    ensures SameOutsideDocument(t, AsRefreshed(u.(index := index), documents, a, d), d)
  {
    assert DocumentSections(AsRefreshed(u.(index := index), documents, a, d), d) == DocumentSections(AsRefreshed(u, documents, a, d), d);
  }

  lemma UpsertedRow(t: Tables, input: DocumentInput, now: int)
    requires ReferencesResolve(t) && UniqueDocuments(t.documents) && UpsertDocumentRows(t, input, now).Ok?
    ensures var w := UpsertDocumentRows(t, input, now).value;
            var d := ResolvedDocument(w, input);
            && UpsertShape(t, w, d) && d in w.documents && w.documents == t.documents[w.written := w.documents[w.written]]
            && RowUpserted(t, t.(documents := w.documents), w.written, input, now) && w.documents[w.written].updatedAt == now
            && (w.written != d <==> Misaddressed(t, input, w.written, d))
            && (if DocumentsByPublicId(w.documents, input.publicId) == {} then d == w.written
                else w.documents[d].publicId == input.publicId)
  {
    Addressing(t, input, now);
    ResolvedNames(t, input, now);
    hide ReferencesResolve, UniqueDocuments, UpsertDocumentRows, ResolvedDocument, DocumentsByPublicId, Misaddressed;
    var w := UpsertDocumentRows(t, input, now).value;
    WrittenRow(t, w, ResolvedDocument(w, input), input, now);
  }

  lemma ResolvedNames(t: Tables, input: DocumentInput, now: int)
    requires UpsertDocumentRows(t, input, now).Ok?
    ensures var w := UpsertDocumentRows(t, input, now).value;
            var d := ResolvedDocument(w, input);
            if DocumentsByPublicId(w.documents, input.publicId) == {} then d == w.written
            else d in w.documents && w.documents[d].publicId == input.publicId
    ensures var w := UpsertDocumentRows(t, input, now).value;
            w.written in t.documents ==> HasKey(t.documents[w.written], input.sourceId, input.stableKey)
  {
    hide UrlConflicts;
    var w := UpsertDocumentRows(t, input, now).value;
    var d := ResolvedDocument(w, input);
    assert DocumentsByPublicId(w.documents, input.publicId) != {} ==> d in DocumentsByPublicId(w.documents, input.publicId);
    assert DocumentsByKey(t.documents, input.sourceId, input.stableKey) != {} ==>
             w.written in DocumentsByKey(t.documents, input.sourceId, input.stableKey);
  }

  lemma WrittenRow(t: Tables, w: DocumentWrite, d: nat, input: DocumentInput, now: int)
    requires UpsertShape(t, w, d)
    requires w.written in t.documents ==>
               && HasKey(t.documents[w.written], input.sourceId, input.stableKey)
               && w.documents[w.written] == UpdatedDocument(t.documents[w.written], input, now)
    requires w.written !in t.documents ==> w.documents[w.written] == NewDocument(input, now)
    ensures w.documents == t.documents[w.written := w.documents[w.written]]
    ensures RowUpserted(t, t.(documents := w.documents), w.written, input, now) && w.documents[w.written].updatedAt == now
  {
  }

  lemma RevisionTouchesOneDocument(t: Tables, w: DocumentWrite, d: nat, revision: RevisionInput, times: CommitTimes)
    requires ReferencesResolve(t) && UniqueVersions(t.versions) && UpsertShape(t, w, d)
    requires RevisionRows(t, w.documents, d, revision, times).Ok?
    ensures SameOutsideDocument(t, AsRefreshed(RevisionRows(t, w.documents, d, revision, times).value, t.documents, w.written, d), d)
  {
    hide ReferencesResolve, UniqueVersions, FlagMoved, SectionsReplaced, SameOutsideDocument, Promoted;
    var x := RevisionRows(t, w.documents, d, revision, times).value;
    var v := RevisionVersion(t.versions, d, revision, times);
    CommittedVersionMovesFlag(t.versions, revision.version, d, times.version);
    ReplacedSectionsFacts(t.sections, v, revision.sections);
    UpsertedThenPromoted(t, x, w, d, v, times.pointer);
    PromotedOutside(t, AsRefreshed(x, t.documents, w.written, d), d, v);
  }

  lemma ObservedTouchesOneDocument(t: Tables, before: Tables, x: Tables, owned: map<nat, OwnerToken>, a: nat, d: nat,
                                   observation: Option<Observation>, at: int)
    requires SameOutsideDocument(t, AsRefreshed(x, t.documents, a, d), d) && Observe(before, x, owned, d, observation, at).error.None?
    requires d in x.documents && x.documents[d].currentVersion.Some?
             && x.documents[d].currentVersion.value in x.versions
             && x.versions[x.documents[d].currentVersion.value].documentId == d
    ensures SameOutsideDocument(t, AsRefreshed(Observe(before, x, owned, d, observation, at).tables, t.documents, a, d), d)
  {
    var u := Observe(before, x, owned, d, observation, at).tables;
    var v := x.documents[d].currentVersion.value;
    ObservedRowsAlike(before, x, owned, d, observation, at);
    hide Observe, SameOutsideDocument, AsRefreshed, DocumentSections;
    RestoredAlike(x, u, t.documents, a, d, v);
    SameOutsideRows(t, AsRefreshed(x, t.documents, a, d), AsRefreshed(u, t.documents, a, d), d, v);
  }

  lemma ObservedRowsAlike(before: Tables, x: Tables, owned: map<nat, OwnerToken>, d: nat, observation: Option<Observation>, at: int)
    requires Observe(before, x, owned, d, observation, at).error.None?
    requires d in x.documents && x.documents[d].currentVersion.Some? && x.documents[d].currentVersion.value in x.versions
    ensures var u := Observe(before, x, owned, d, observation, at).tables;
            var v := x.documents[d].currentVersion.value;
            && u.sources == x.sources && u.documents == x.documents && u.sections == x.sections
            && v in u.versions && u.versions == x.versions[v := u.versions[v]] && u.versions[v].documentId == x.versions[v].documentId
  {
  }

  lemma RestoredAlike(x: Tables, u: Tables, documents: map<nat, Document>, a: nat, d: nat, v: nat)
    requires u.sources == x.sources && u.documents == x.documents && u.sections == x.sections
    requires v in x.versions && v in u.versions && u.versions == x.versions[v := u.versions[v]]
    requires u.versions[v].documentId == x.versions[v].documentId
    ensures var y, w := AsRefreshed(x, documents, a, d), AsRefreshed(u, documents, a, d);
            && w.sources == y.sources && w.documents == y.documents && w.sections == y.sections
            && w.versions == u.versions && y.versions == x.versions
            && DocumentSections(w, d) == DocumentSections(y, d)
  {
  }

  lemma SameOutsideRows(t: Tables, x: Tables, u: Tables, d: nat, v: nat)
    requires SameOutsideDocument(t, x, d) && DocumentSections(u, d) == DocumentSections(x, d)
    requires u.sources == x.sources && u.documents == x.documents && u.sections == x.sections
    requires v in x.versions && v in u.versions && x.versions[v].documentId == d
    requires u.versions == x.versions[v := u.versions[v]] && u.versions[v].documentId == d
    ensures SameOutsideDocument(t, u, d)
  {
  }

  // The tables after the commit of a document the catalog does not have yet.
  ghost function WithDocument(t: Tables, revision: RevisionInput, times: CommitTimes): Tables {
    var d, v, s := NextRowId(t.documents.Keys), NextRowId(t.versions.Keys), NextRowId(t.sections.Keys);
    t.(documents := t.documents[d := NewDocument(revision.document, times.document).(currentVersion := Some(v), updatedAt := times.pointer)],
       versions := t.versions[v := VersionRow(revision.version.(documentId := d, isCurrent := true), times.version, false)],
       sections := t.sections + NumberedSections(s, v, revision.sections))
  }

  predicate IsNew(t: Tables, input: DocumentInput) {
    && input.sourceId in t.sources
    && forall d | d in t.documents ::
         && t.documents[d].publicId != input.publicId && !HasKey(t.documents[d], input.sourceId, input.stableKey)
         && !(t.documents[d].sourceId == input.sourceId && t.documents[d].canonicalUrl == input.canonicalUrl)
  }

  lemma NewRowUpserted(t: Tables, input: DocumentInput, now: int)
    requires IsNew(t, input)
    ensures var d := NextRowId(t.documents.Keys);
            && UpsertDocumentRows(t, input, now) == Ok(DocumentWrite(t.documents[d := NewDocument(input, now)], d))
            && ResolvedDocument(UpsertDocumentRows(t, input, now).value, input) == d
  {
    var d := NextRowId(t.documents.Keys);
    assert DocumentsByKey(t.documents, input.sourceId, input.stableKey) == {};
    assert DocumentsByPublicId(t.documents, input.publicId) == {} == UrlConflicts(t.documents, input, {});
    var w := UpsertDocumentRows(t, input, now).value;
    assert DocumentsByPublicId(w.documents, input.publicId) == {d};
  }

  lemma NewVersionInserted(t: Tables, d: nat, input: VersionInput, now: int)
    requires ReferencesResolve(t) && d !in t.documents && input.documentId == d
    ensures ClearCurrentVersions(t.versions, d) == t.versions
    ensures var v := NextRowId(t.versions.Keys);
            UpsertVersionRow(t.versions, input, now, false) == VersionWrite(t.versions[v := VersionRow(input, now, false)], v)
  {
    assert VersionsByHash(t.versions, d, input.contentHash) == {};
  }

  lemma NewSectionsInserted(t: Tables, inputs: seq<SectionInput>)
    requires ReferencesResolve(t) && |inputs| <= MAX_PERSISTED_DOCUMENT_SECTIONS && DistinctOrdinals(inputs)
    ensures var v := NextRowId(t.versions.Keys);
            ReplacedSections(t.sections, v, inputs) == Ok(t.sections + NumberedSections(NextRowId(t.sections.Keys), v, inputs))
  {
    assert SectionsWithout(t.sections, NextRowId(t.versions.Keys)) == t.sections;
  }

  lemma CommitOfNewDocument(t: Tables, owned: map<nat, OwnerToken>, revision: RevisionInput, times: CommitTimes)
    requires ReferencesResolve(t) && IsNew(t, revision.document)
    requires 0 < |revision.sections| <= MAX_PERSISTED_DOCUMENT_SECTIONS && DistinctOrdinals(revision.sections)
    ensures Commit(t, owned, revision, None, times) == Succeeded(Reindexed(WithDocument(t, revision, times)), owned)
  {
    hide UpsertDocumentRows, ResolvedDocument, IsNew, ReferencesResolve, UpsertVersionRow, ClearCurrentVersions, ReplacedSections,
         Projection, DistinctOrdinals, NumberedSections, VersionRow;
    var d := NextRowId(t.documents.Keys);
    NewRowUpserted(t, revision.document, times.document);
    NewVersionInserted(t, d, revision.version.(documentId := d, isCurrent := true), times.version);
    NewSectionsInserted(t, revision.sections);
    var w := UpsertDocumentRows(t, revision.document, times.document).value;
    var x := RevisionRows(t, w.documents, d, revision, times).value;
    assert x == WithDocument(t, revision, times);
    assert d in DocumentsByPublicId(x.documents, revision.document.publicId);
  }

  // The document row found by key and the one found by public id, when they differ: the first takes
  // the input's fields and keeps its version, the second takes the version and keeps its fields.
  predicate RowsCommitted(t: Tables, u: Tables, a: nat, d: nat, revision: RevisionInput, times: CommitTimes) {
    && RowUpserted(t, u, a, revision.document, times.document)
    && d in u.documents && u.documents == t.documents[a := u.documents[a]][d := u.documents[d]]
    && (a != d ==>
          && Misaddressed(t, revision.document, a, d)
          && u.documents[a].currentVersion == t.documents[a].currentVersion && u.documents[a].updatedAt == times.document
          && u.documents[d] == t.documents[d].(currentVersion := u.documents[d].currentVersion, updatedAt := times.pointer))
  }

  // A committed revision is read back as it was given: the fields of its document, its one current
  // version and that version's sections. Row a put back, no row of any document but d has changed.
  ghost predicate Committed(t: Tables, u: Tables, a: nat, d: nat, revision: RevisionInput, observation: Option<Observation>,
                            times: CommitTimes)
  {
    && RowsCommitted(t, u, a, d, revision, times)
    && ReadsBack(u, d, revision, times, RefreshedValidators(observation))
    && SameOutsideDocument(t, AsRefreshed(u, t.documents, a, d), d)
    && Recorded(t, u, d, observation, times.pointer)
  }

  lemma CommitReadsBack(t: Tables, owned: map<nat, OwnerToken>, revision: RevisionInput,
                        observation: Option<Observation>, times: CommitTimes)
    requires BaseConsistent(t)
    ensures var out := Commit(t, owned, revision, observation, times);
            out.error.None? ==> exists a, d :: Committed(t, out.tables, a, d, revision, observation, times)
  {
    hide UpsertDocumentRows, ResolvedDocument, Committed, Commit;
    var out := Commit(t, owned, revision, observation, times);
    if out.error.None? {
      CommitReadsBackFrom(t, owned, revision, observation, times);
      var w := UpsertDocumentRows(t, revision.document, times.document).value;
      assert Committed(t, out.tables, w.written, ResolvedDocument(w, revision.document), revision, observation, times);
    }
  }

  lemma CommitReadsBackFrom(t: Tables, owned: map<nat, OwnerToken>, revision: RevisionInput,
                            observation: Option<Observation>, times: CommitTimes)
    requires BaseConsistent(t)
    ensures var out := Commit(t, owned, revision, observation, times);
            out.error.None? ==>
              && UpsertDocumentRows(t, revision.document, times.document).Ok?
              && var w := UpsertDocumentRows(t, revision.document, times.document).value;
                 Committed(t, out.tables, w.written, ResolvedDocument(w, revision.document), revision, observation, times)
  {
    hide ReferencesResolve, UniqueDocuments, UniqueVersions, PointersMatchFlags, UpsertDocumentRows, ResolvedDocument, Observe,
         RevisionRows, RefreshedFor, ReadsBack, SameOutsideDocument, Recorded, RowsCommitted, AsRefreshed, RowUpserted, Misaddressed,
         UpsertShape;
    var out := Commit(t, owned, revision, observation, times);
    if out.error.None? {
      var w := UpsertDocumentRows(t, revision.document, times.document).value;
      var a, d := w.written, ResolvedDocument(w, revision.document);
      var x := RevisionRows(t, w.documents, d, revision, times).value;
      RevisionKeepsPublicIds(t, w, d, revision, times);
      UpsertedRow(t, revision.document, times.document);
      UpsertDocumentFacts(t, revision.document, times.document);
      ShapeHasRow(t, w, d);
      RevisionReadsBack(t, w, d, revision, times);
      RevisionRecordsNothing(t, w.documents, d, revision, times);
      RevisionTouchesOneDocument(t, w, d, revision, times);
      RevisionRowsCommitted(t, w, d, revision, times);
      var observed := Observe(t, x, owned, d, observation, times.pointer).tables;
      ObservedReadsBack(t, x, owned, d, revision, observation, times);
      ReadsBackPointer(x, d, revision, times);
      ObservedTouchesOneDocument(t, t, x, owned, a, d, observation, times.pointer);
      FinishedTables(t, x, owned, d, observation, times.pointer, t.documents, a);
      RefreshedRows(observed, t.documents, a, d);
      var index := RefreshedFor(observed, t.documents, a, d).index;
      ReindexedReadsBack(observed, index, d, revision, times, RefreshedValidators(observation));
      ReindexedOutside(t, observed, t.documents, index, a, d);
      RowsCommittedAlike(t, x, out.tables, a, d, revision, times);
      RecordedAlike(t, x, observed, out.tables, d, observation, times.pointer);
    }
  }

  lemma ShapeHasRow(t: Tables, w: DocumentWrite, d: nat)
    requires UpsertShape(t, w, d)
    ensures d in w.documents
  {
  }

  lemma RowsCommittedAlike(t: Tables, x: Tables, u: Tables, a: nat, d: nat, revision: RevisionInput, times: CommitTimes)
    requires RowsCommitted(t, x, a, d, revision, times) && u.documents == x.documents
    ensures RowsCommitted(t, u, a, d, revision, times)
  {
  }

  lemma RevisionRowsCommitted(t: Tables, w: DocumentWrite, d: nat, revision: RevisionInput, times: CommitTimes)
    requires UpsertShape(t, w, d) && w.documents == t.documents[w.written := w.documents[w.written]]
    requires RowUpserted(t, t.(documents := w.documents), w.written, revision.document, times.document)
    requires w.documents[w.written].updatedAt == times.document && (w.written != d ==> Misaddressed(t, revision.document, w.written, d))
    requires RevisionRows(t, w.documents, d, revision, times).Ok?
    ensures RowsCommitted(t, RevisionRows(t, w.documents, d, revision, times).value, w.written, d, revision, times)
  {
    hide ReplacedSections, ClearCurrentVersions, UpsertVersionRow;
  }

  lemma RevisionRecordsNothing(t: Tables, documents: map<nat, Document>, d: nat, revision: RevisionInput, times: CommitTimes)
    requires RevisionRows(t, documents, d, revision, times).Ok?
    ensures var x := RevisionRows(t, documents, d, revision, times).value;
            x.runs == t.runs && x.aliases == t.aliases && x.events == t.events
  {
  }

  lemma RecordedAlike(t: Tables, x: Tables, u: Tables, after: Tables, d: nat, observation: Option<Observation>, at: int)
    requires Recorded(x, u, d, observation, at)
    requires x.runs == t.runs && x.aliases == t.aliases && x.events == t.events
    requires after.runs == u.runs && after.aliases == u.aliases && after.events == u.events
    ensures Recorded(t, after, d, observation, at)
  {
  }

  lemma ReadsBackPointer(x: Tables, d: nat, revision: RevisionInput, times: CommitTimes)
    requires ReadsBack(x, d, revision, times, None)
    ensures d in x.documents && x.documents[d].currentVersion.Some? && x.documents[d].currentVersion.value in x.versions
    ensures x.versions[x.documents[d].currentVersion.value].documentId == d
  {
  }

  lemma RevisionKeepsPublicIds(t: Tables, w: DocumentWrite, d: nat, revision: RevisionInput, times: CommitTimes)
    requires RevisionRows(t, w.documents, d, revision, times).Ok?
    ensures DocumentsByPublicId(RevisionRows(t, w.documents, d, revision, times).value.documents, revision.document.publicId)
            == DocumentsByPublicId(w.documents, revision.document.publicId)
  {
  }

  // One row, a, has the input's fields and no other row of the catalog changed (validators refreshed
  // by the observation aside); its current version stays. What is recorded is of document d, which
  // has the input's public id if any document has.
  predicate OneRowUpserted(t: Tables, u: Tables, a: nat, d: nat, input: DocumentInput, now: int) {
    && RowUpserted(t, u, a, input, now) && u.documents[a].updatedAt == now
    && u.documents[a].currentVersion == (if a in t.documents then t.documents[a].currentVersion else None)
    && u.documents == t.documents[a := u.documents[a]] && u.sections == t.sections && u.sources == t.sources
    && SameVersionShape(t.versions, u.versions)
    && d in u.documents
    && (if DocumentsByPublicId(u.documents, input.publicId) == {} then d == a else u.documents[d].publicId == input.publicId)
  }

  // An upsert changes one document's own fields and nothing else, and records its observation.
  lemma UpsertReadsBack(t: Tables, owned: map<nat, OwnerToken>, input: DocumentInput, observation: Option<Observation>,
                        now: int, observedAt: int)
    requires BaseConsistent(t)
    ensures var out := UpsertDocument(t, owned, input, observation, now, observedAt);
            out.error.None? ==>
              exists a, d :: OneRowUpserted(t, out.tables, a, d, input, now) && Recorded(t, out.tables, d, observation, observedAt)
  {
    hide UniqueDocuments, UpsertDocumentRows, ResolvedDocument, Observe, RefreshedFor, Recorded, SameVersionShape, DocumentsByPublicId,
         OneRowUpserted, RowUpserted, UpsertShape, Misaddressed;
    var out := UpsertDocument(t, owned, input, observation, now, observedAt);
    if out.error.None? {
      var w := UpsertDocumentRows(t, input, now).value;
      var x := t.(documents := w.documents);
      UpsertedRow(t, input, now);
      var d := ResolvedDocument(w, input);
      FinishedTables(t, x, owned, d, observation, observedAt, t.documents, w.written);
      ObservedShape(t, x, owned, d, observation, observedAt);
      RecordedAlike(t, x, Observe(t, x, owned, d, observation, observedAt).tables, out.tables, d, observation, observedAt);
      UpsertedAlike(t, w, out.tables, d, input, now);
    }
  }

  lemma UpsertedAlike(t: Tables, w: DocumentWrite, u: Tables, d: nat, input: DocumentInput, now: int)
    requires UpsertShape(t, w, d) && w.documents == t.documents[w.written := w.documents[w.written]]
    requires RowUpserted(t, t.(documents := w.documents), w.written, input, now) && w.documents[w.written].updatedAt == now
    requires if DocumentsByPublicId(w.documents, input.publicId) == {} then d == w.written else w.documents[d].publicId == input.publicId
    requires u.documents == w.documents && u.sections == t.sections && u.sources == t.sources && SameVersionShape(t.versions, u.versions)
    ensures OneRowUpserted(t, u, w.written, d, input, now)
  {
    hide DocumentsByPublicId, SameVersionShape;
  }

  lemma ObservedShape(before: Tables, x: Tables, owned: map<nat, OwnerToken>, d: nat, observation: Option<Observation>, at: int)
    requires Observe(before, x, owned, d, observation, at).error.None?
    ensures SameVersionShape(x.versions, Observe(before, x, owned, d, observation, at).tables.versions)
    ensures Recorded(x, Observe(before, x, owned, d, observation, at).tables, d, observation, at)
  {
    hide SameVersionShape, Recorded;
    if observation.Some? {
      ObservedVersions(x, d, observation.value, at);
      ObservedLedger(x, d, observation.value, at);
    } else {
      SameShape(x.versions);
      NothingRecorded(x, d, at);
    }
  }

  lemma SameShape(versions: map<nat, Version>)
    ensures SameVersionShape(versions, versions)
  {
  }

  lemma NothingRecorded(x: Tables, d: nat, at: int)
    ensures Recorded(x, x, d, None, at)
  {
  }

  lemma ObservedVersions(x: Tables, d: nat, o: Observation, at: int)
    requires o.runId in x.runs
    ensures SameVersionShape(x.versions, Observed(x, d, o, at).versions)
  {
  }

  lemma ObservedLedger(x: Tables, d: nat, o: Observation, at: int)
    requires o.runId in x.runs
    ensures Recorded(x, Observed(x, d, o, at), d, Some(o), at)
  {
    hide UpsertAliases, CurrentVersion, RefreshedVersion;
  }

  /*** Observations ***/

  predicate Named(inputs: seq<AliasInput>, url: string) {
    exists i :: 0 <= i < |inputs| && inputs[i].url == url
  }

  // The last type given to the URL.
  predicate LastType(inputs: seq<AliasInput>, url: string, aliasType: AliasType) {
    exists i :: 0 <= i < |inputs| && inputs[i].url == url && inputs[i].aliasType == aliasType
                && forall j :: i < j < |inputs| ==> inputs[j].url != url
  }

  lemma OneMoreAlias(inputs: seq<AliasInput>, url: string)
    requires inputs != []
    ensures var before, last := inputs[..|inputs| - 1], inputs[|inputs| - 1];
            && (Named(inputs, url) <==> Named(before, url) || last.url == url)
            && (last.url == url ==> LastType(inputs, url, last.aliasType))
            && (last.url != url ==> forall aliasType :: LastType(before, url, aliasType) ==> LastType(inputs, url, aliasType))
  {
    var before, last := inputs[..|inputs| - 1], inputs[|inputs| - 1];
    assert forall j :: 0 <= j < |before| ==> before[j] == inputs[j];
    if i :| 0 <= i < |before| && before[i].url == url {
      assert inputs[i].url == url;
    }
    hide Named;
    forall aliasType | last.url != url && LastType(before, url, aliasType)
      ensures LastType(inputs, url, aliasType)
    {
      StillLast(inputs, url, aliasType);
    }
  }

  lemma StillLast(inputs: seq<AliasInput>, url: string, aliasType: AliasType)
    requires inputs != [] && inputs[|inputs| - 1].url != url && LastType(inputs[..|inputs| - 1], url, aliasType)
    ensures LastType(inputs, url, aliasType)
  {
    var before := inputs[..|inputs| - 1];
    var i :| 0 <= i < |before| && before[i].url == url && before[i].aliasType == aliasType
             && forall j :: i < j < |before| ==> before[j].url != url;
    forall j | i < j < |inputs|
      ensures inputs[j].url != url
    {
      assert j < |before| ==> before[j] == inputs[j];
    }
    assert inputs[i].url == url && inputs[i].aliasType == aliasType;
  }

  // Each alias named gets its type (the last one given) and this time; an alias known already keeps
  // when it was first seen; no other alias changes.
  lemma {:induction false} AliasesAreRecorded(aliases: map<AliasKey, Alias>, d: nat, inputs: seq<AliasInput>, at: int, key: AliasKey)
    ensures var after := UpsertAliases(aliases, d, inputs, at);
            if key.documentId == d && Named(inputs, key.url)
            then && key in after && after[key].lastSeenAt == at
                 && after[key].firstSeenAt == (if key in aliases then aliases[key].firstSeenAt else at)
                 && LastType(inputs, key.url, after[key].aliasType)
            else (key in after <==> key in aliases) && (key in aliases ==> after[key] == aliases[key])
    decreases |inputs|
  {
    if inputs != [] {
      hide Named, LastType;
      OneMoreAlias(inputs, key.url);
      AliasesAreRecorded(aliases, d, inputs[..|inputs| - 1], at, key);
    } else {
      assert !Named(inputs, key.url);
    }
  }

  // Validators given with an observation replace those of the document's current version, which then
  // counts as fetched at that time; those not given, and every other version, stay.
  lemma ValidatorsAreRefreshed(before: Tables, x: Tables, owned: map<nat, OwnerToken>, d: nat, o: Observation, at: int)
    requires Observe(before, x, owned, d, Some(o), at).error.None?
    ensures var versions := Observe(before, x, owned, d, Some(o), at).tables.versions;
            match o.validators
            case None => versions == x.versions
            case Some(Validators(etag, lastModified)) =>
              && d in x.documents && x.documents[d].currentVersion.Some? && x.documents[d].currentVersion.value in x.versions
              && var row := x.versions[x.documents[d].currentVersion.value];
                 versions == x.versions[x.documents[d].currentVersion.value :=
                   Version(row.documentId, row.contentHash, if etag.Some? then etag else row.etag,
                           if lastModified.Some? then lastModified else row.lastModified, at, row.isCurrent, row.pendingCurrent, row.metadata)]
  {
    hide UpsertAliases;
  }

  /*** Sources, versions and sections ***/

  // A new source is refused exactly if its key is taken, and otherwise stored as given.
  lemma AddSourceReadsBack(t: Tables, owned: map<nat, OwnerToken>, input: SourceInput, now: int)
    ensures var out := AddSource(t, owned, input, now);
            && (out.error.None? <==> forall s | s in t.sources :: t.sources[s].key != input.key)
            && (out.error.None? ==>
                  exists s: nat :: s !in t.sources
                                   && out.tables.sources == t.sources[s := Source(input.key, input.displayName, input.enabled, now, now)])
            && out.tables == t.(sources := out.tables.sources, index := out.tables.index)
  {
    hide Projection;
    if AddSource(t, owned, input, now).error.None? {
      assert NextRowId(t.sources.Keys) !in t.sources;
    }
  }

  // An update is refused exactly if no source has the key, and changes what it is for in that one.
  lemma UpdateSourceReadsBack(t: Tables, owned: map<nat, OwnerToken>, input: SourceInput, now: int)
    ensures var out := UpdateSource(t, owned, input, now);
            && (out.error.None? <==> exists s :: s in t.sources && t.sources[s].key == input.key)
            && (out.error.None? ==>
                  exists s :: s in t.sources && t.sources[s].key == input.key
                              && out.tables.sources
                                 == t.sources[s := Source(input.key, input.displayName, input.enabled, t.sources[s].createdAt, now)])
            && out.tables == t.(sources := out.tables.sources, index := out.tables.index)
  {
    hide Projection;
    var matches := set s | s in t.sources && t.sources[s].key == input.key;
    if s :| s in t.sources && t.sources[s].key == input.key {
      assert s in matches;
    }
  }

  // The row of a version that was added: one of the same content keeps its flag, and one that is to
  // be current waits for its sections unless it is current already.
  predicate VersionAdded(t: Tables, u: Tables, v: nat, input: VersionInput, now: int) {
    && (if v in t.versions then t.versions[v].documentId == input.documentId && t.versions[v].contentHash == input.contentHash
        else forall w | w in t.versions :: !(t.versions[w].documentId == input.documentId && t.versions[w].contentHash == input.contentHash))
    && var current := v in t.versions && t.versions[v].isCurrent;
       u.versions == t.versions[v := Version(input.documentId, input.contentHash, input.etag, input.lastModified, now, current,
                                             input.isCurrent && !current, input.metadata)]
  }

  lemma AddVersionReadsBack(t: Tables, owned: map<nat, OwnerToken>, input: VersionInput, now: int)
    requires UniqueVersions(t.versions)
    ensures var out := AddVersion(t, owned, input, now);
            && (out.error.None? <==> input.documentId in t.documents)
            && (out.error.None? ==> exists v :: VersionAdded(t, out.tables, v, input, now))
            && out.tables == t.(versions := out.tables.versions, index := out.tables.index)
  {
    hide Projection;
    var out := AddVersion(t, owned, input, now);
    if out.error.None? {
      AddedRow(t, out.tables, input, now);
    }
  }

  lemma AddedRow(t: Tables, u: Tables, input: VersionInput, now: int)
    requires UniqueVersions(t.versions) && u.versions == AddedVersion(t.versions, input, now).versions
    ensures VersionAdded(t, u, AddedVersion(t.versions, input, now).written, input, now)
  {
    var matches := VersionsByHash(t.versions, input.documentId, input.contentHash);
    var v := AddedVersion(t.versions, input, now).written;
    if matches == {} {
      assert forall w | w in t.versions :: w !in matches;
    } else {
      assert v in matches;
      assert matches == {v};
    }
  }

  // What replacing a version's sections leaves of documents and versions: a version that waited for
  // them is its document's one current version, and otherwise nothing changes.
  predicate SectionsArrived(t: Tables, u: Tables, v: nat, now: int)
    requires v in t.versions
  {
    var d := t.versions[v].documentId;
    if !t.versions[v].pendingCurrent then u.documents == t.documents && u.versions == t.versions
    else
      && u.documents.Keys == t.documents.Keys && u.versions.Keys == t.versions.Keys
      && (forall e | e in t.documents ::
            u.documents[e] == if e == d then t.documents[e].(currentVersion := Some(v), updatedAt := now) else t.documents[e])
      && (forall w | w in t.versions ::
            u.versions[w] == if w == v then t.versions[w].(isCurrent := true, pendingCurrent := false)
                             else if t.versions[w].documentId == d then t.versions[w].(isCurrent := false)
                             else t.versions[w])
  }

  // Sections are replaced unless there are too many, two have one ordinal, or none are given for a
  // version that is or is to be current.
  lemma ReplaceSectionsTakenExactly(t: Tables, owned: map<nat, OwnerToken>, v: nat, inputs: seq<SectionInput>, now: int)
    ensures var out := ReplaceSections(t, owned, v, inputs, now);
            && (out.error.None? <==>
                  && v in t.versions && |inputs| <= 1024
                  && (forall i, j :: 0 <= i < j < |inputs| ==> inputs[i].ordinal != inputs[j].ordinal)
                  && (t.versions[v].isCurrent || t.versions[v].pendingCurrent ==> inputs != []))
            && (out.error.Some? ==> out.tables == t)
  {
    hide Projection, ReplacedSections, StrandedRows, PromotedVersions, PointedTo;
    ReplaceableExactly(t.sections, v, inputs);
  }

  // Afterwards the version's sections are exactly those given; those of others stay.
  lemma ReplaceSectionsReadsBack(t: Tables, owned: map<nat, OwnerToken>, v: nat, inputs: seq<SectionInput>, now: int)
    requires ReplaceSections(t, owned, v, inputs, now).error.None?
    ensures v in t.versions
    ensures var u := ReplaceSections(t, owned, v, inputs, now).tables;
            && StoresSections(u.sections, v, inputs) && SectionsArrived(t, u, v, now)
            && forall s :: s in t.sections && t.sections[s].versionId != v ==> s in u.sections && u.sections[s] == t.sections[s]
  {
    hide ReplaceSections, StoresSections, ReplacedSections, SectionsArrived, PromotedVersions, PointedTo;
    var u := ReplaceSections(t, owned, v, inputs, now).tables;
    ReplacedTables(t, owned, v, inputs, now);
    ReplacedSectionsStore(t.sections, v, inputs);
    OtherSectionsStay(t.sections, v, inputs);
    PromotedExactly(t, u, v, now);
  }

  lemma ReplacedTables(t: Tables, owned: map<nat, OwnerToken>, v: nat, inputs: seq<SectionInput>, now: int)
    requires ReplaceSections(t, owned, v, inputs, now).error.None?
    ensures var u := ReplaceSections(t, owned, v, inputs, now).tables;
            && v in t.versions && ReplacedSections(t.sections, v, inputs) == Ok(u.sections)
            && if t.versions[v].pendingCurrent
               then u.documents == PointedTo(t.documents, t.versions[v].documentId, v, now) && u.versions == PromotedVersions(t.versions, v)
               else u.documents == t.documents && u.versions == t.versions
  {
    hide Projection, ReplacedSections, StrandedRows, PromotedVersions, PointedTo, Reindexed;
    var sections := ReplacedSections(t.sections, v, inputs).value;
    var replaced := t.(sections := sections);
    if t.versions[v].pendingCurrent {
      ReindexedOnly(replaced.(versions := PromotedVersions(t.versions, v),
                              documents := PointedTo(t.documents, t.versions[v].documentId, v, now)));
    } else {
      ReindexedOnly(replaced);
    }
  }

  lemma ReindexedOnly(t: Tables)
    ensures Reindexed(t).documents == t.documents && Reindexed(t).versions == t.versions && Reindexed(t).sections == t.sections
  {
  }

  lemma ReplaceableExactly(sections: map<nat, Section>, v: nat, inputs: seq<SectionInput>)
    ensures ReplacedSections(sections, v, inputs).Ok? <==>
              && |inputs| <= 1024 && forall i, j :: 0 <= i < j < |inputs| ==> inputs[i].ordinal != inputs[j].ordinal
  {
  }

  lemma OtherSectionsStay(sections: map<nat, Section>, v: nat, inputs: seq<SectionInput>)
    requires ReplacedSections(sections, v, inputs).Ok?
    ensures var after := ReplacedSections(sections, v, inputs).value;
            forall s :: s in sections && sections[s].versionId != v ==> s in after && after[s] == sections[s]
  {
    hide ReplacedSections;
    ReplacedSectionsFacts(sections, v, inputs);
  }

  lemma PromotedExactly(t: Tables, u: Tables, v: nat, now: int)
    requires v in t.versions
    requires if t.versions[v].pendingCurrent
             then u.documents == PointedTo(t.documents, t.versions[v].documentId, v, now) && u.versions == PromotedVersions(t.versions, v)
             else u.documents == t.documents && u.versions == t.versions
    ensures SectionsArrived(t, u, v, now)
  {
  }
}
