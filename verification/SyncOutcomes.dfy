// What one document of a synchronisation run leaves in the catalog, outcome by outcome.
module SyncOutcomes {
  import opened Prelude
  import opened CatalogTables
  import opened CatalogInvariant
  import opened CatalogObservations
  import opened CatalogTransactions
  import opened CatalogIndexing
  import opened CatalogHistory
  import opened CatalogAgreement
  import opened CatalogRuns
  import opened CatalogEffects
  import opened SyncService

  // The catalog takes the turn's write, if it makes one.
  ghost predicate TurnSucceeds(st: State, turn: Turn) {
    forall i :: 0 <= i < |EventsOf([turn])| ==> Succeeds(st, EventsOf([turn])[i])
  }

  ghost function TablesAfter(st: State, turn: Turn): Tables {
    After(st, EventsOf([turn])).tables
  }

  lemma OneTurn(st: State, turn: Turn)
    ensures WriteOf(turn).None? ==> TurnSucceeds(st, turn) && After(st, EventsOf([turn])) == st
    ensures WriteOf(turn).Some? ==>
              var out := Apply(st.tables, TokensOf(st, turn.store), WriteOf(turn).value);
              TablesAfter(st, turn) == out.tables && (TurnSucceeds(st, turn) <==> out.error.None?)
  {
    hide Apply, WriteOf;
    assert [turn][1..] == [];
    assert EventsOf([]) == [];
    if WriteOf(turn).Some? {
      var e := Event(turn.store, WriteOf(turn).value);
      assert EventsOf([turn]) == [e];
      assert After(Happen(st, e), [e][1..]) == Happen(st, e);
    } else {
      assert EventsOf([turn]) == [];
    }
  }

  // A document of the run: the row seen before the fetch was found by the document's public id,
  // which is computed from source and stable key, and is still there.
  ghost predicate Applies(st: State, turn: Turn, idOf: (nat, string) -> string) {
    && BaseConsistent(st.tables) && Derived(st.tables, idOf) && turn.Sync? && DerivedTurn(turn, idOf)
    && (turn.existing.Some? ==>
          && turn.existing.value.row.publicId == turn.requested.publicId
          && turn.existing.value.id in st.tables.documents
          && st.tables.documents[turn.existing.value.id].publicId == turn.requested.publicId)
  }

  // Only the row of document d differs, and the observation is recorded for it.
  predicate OnlyDocument(t: Tables, u: Tables, d: nat, row: Document, observation: Observation, at: int) {
    && u.documents == t.documents[d := row] && u.sources == t.sources && u.sections == t.sections
    && SameVersionShape(t.versions, u.versions) && Recorded(t, u, d, Some(observation), at)
  }

  /*** Rows written by key ***/

  lemma UpsertOutcome(t: Tables, owned: map<nat, OwnerToken>, d: nat, input: DocumentInput, observation: Observation, now: int,
                      idOf: (nat, string) -> string)
    requires BaseConsistent(t) && Derived(t, idOf) && DerivedInput(input, idOf)
    requires d in t.documents && t.documents[d].publicId == input.publicId
    ensures var out := Apply(t, owned, UpsertOp(input, Some(observation), now, now));
            out.error.None? ==>
              OnlyDocument(t, out.tables, d,
                           t.documents[d].(canonicalUrl := input.canonicalUrl, title := input.title, language := input.language,
                                           status := input.status, lastSeenAt := now, updatedAt := now), observation, now)
  {
    hide UpsertDocument, BaseConsistent, Derived, Recorded, SameVersionShape, DocumentsByPublicId, OneRowUpserted, UniqueDocuments;
    var out := UpsertDocument(t, owned, input, Some(observation), now, now);
    if out.error.None? {
      UpsertReadsBack(t, owned, input, Some(observation), now, now);
      StepKeepsBase(t, owned, UpsertOp(input, Some(observation), now, now));
      BaseParts(t);
      BaseParts(out.tables);
      UpsertDocumentKeepsDerived(t, owned, input, Some(observation), now, now, idOf);
      var a, e :| OneRowUpserted(t, out.tables, a, e, input, now) && Recorded(t, out.tables, e, Some(observation), now);
      UpsertedAddressed(t, out.tables, a, e, d, input, now, idOf);
      UpsertedRowOnly(t, out.tables, d, input, now);
    }
  }

  lemma UpsertedAddressed(t: Tables, u: Tables, a: nat, e: nat, d: nat, input: DocumentInput, now: int, idOf: (nat, string) -> string)
    requires UniqueDocuments(u.documents) && Derived(u, idOf) && DerivedInput(input, idOf)
    requires d in t.documents && t.documents[d].publicId == input.publicId && OneRowUpserted(t, u, a, e, input, now)
    ensures a == d && e == d
  {
    hide SameVersionShape;
    assert a in DocumentsByPublicId(u.documents, input.publicId);
    assert d in u.documents && u.documents[d].publicId == input.publicId;
  }

  lemma UpsertedRowOnly(t: Tables, u: Tables, d: nat, input: DocumentInput, now: int)
    requires d in t.documents && OneRowUpserted(t, u, d, d, input, now)
    ensures u.documents == t.documents[d := t.documents[d].(canonicalUrl := input.canonicalUrl, title := input.title,
                                       language := input.language, status := input.status, lastSeenAt := now, updatedAt := now)]
    ensures SameVersionShape(t.versions, u.versions) && u.sources == t.sources && u.sections == t.sections
  {
    hide SameVersionShape, DocumentsByPublicId;
  }

  /*** When a write is taken ***/

  // The store holds the run's lease, the events can be stored, and there are validators only for a
  // document with a current version.
  predicate Recordable(t: Tables, owned: map<nat, OwnerToken>, d: nat, o: Observation) {
    && Leased(t, owned, o)
    && (o.validators.Some? ==>
          d in t.documents && t.documents[d].currentVersion.Some? && t.documents[d].currentVersion.value in t.versions)
  }

  predicate Leased(t: Tables, owned: map<nat, OwnerToken>, o: Observation) {
    && o.runId in owned && o.runId in t.runs
    && t.runs[o.runId].status.Running? && t.runs[o.runId].completedAt.None? && t.runs[o.runId].ownerToken == Some(owned[o.runId])
    && forall i :: 0 <= i < |o.events| ==> o.events[i].isJsonObject
  }

  // No document of the source but the one with the key has the URL.
  predicate UrlFree(t: Tables, sourceId: nat, stableKey: string, url: string) {
    forall e | e in t.documents :: t.documents[e].sourceId == sourceId && t.documents[e].canonicalUrl == url ==>
      t.documents[e].stableKey == stableKey
  }

  lemma ObservedExactly(before: Tables, x: Tables, owned: map<nat, OwnerToken>, d: nat, o: Observation, at: int)
    ensures Observe(before, x, owned, d, Some(o), at).error.None? <==> Recordable(x, owned, d, o)
  {
  }

  lemma RowsWrittenExactly(t: Tables, input: DocumentInput, now: int)
    requires UniqueDocuments(t.documents)
    ensures UpsertDocumentRows(t, input, now).Ok? <==>
              && UrlFree(t, input.sourceId, input.stableKey, input.canonicalUrl)
              && ((exists d :: d in t.documents && t.documents[d].sourceId == input.sourceId && t.documents[d].stableKey == input.stableKey)
                  || (input.sourceId in t.sources && forall d :: d in t.documents ==> t.documents[d].publicId != input.publicId))
  {
    var matches := DocumentsByKey(t.documents, input.sourceId, input.stableKey);
    if matches != {} {
      var a :| a in matches;
      assert HasKey(t.documents[a], input.sourceId, input.stableKey) && matches == {a};
      UrlsInTheWay(t, input, {a});
    } else {
      assert forall d :: d in t.documents ==> d !in matches;
      UrlsInTheWay(t, input, {});
      assert DocumentsByPublicId(t.documents, input.publicId) == {} <==>
               forall d :: d in t.documents ==> t.documents[d].publicId != input.publicId by {
        if d :| d in t.documents && t.documents[d].publicId == input.publicId {
          assert d in DocumentsByPublicId(t.documents, input.publicId);
        }
      }
    }
  }

  lemma UrlsInTheWay(t: Tables, input: DocumentInput, except: set<nat>)
    requires except == DocumentsByKey(t.documents, input.sourceId, input.stableKey)
    ensures UrlConflicts(t.documents, input, except) == {} <==> UrlFree(t, input.sourceId, input.stableKey, input.canonicalUrl)
  {
    if !UrlFree(t, input.sourceId, input.stableKey, input.canonicalUrl) {
      var e :| e in t.documents && t.documents[e].sourceId == input.sourceId && t.documents[e].canonicalUrl == input.canonicalUrl
               && t.documents[e].stableKey != input.stableKey;
      assert e in UrlConflicts(t.documents, input, except);
    }
  }

  lemma KnownDocument(t: Tables, d: nat, input: DocumentInput, idOf: (nat, string) -> string)
    requires UniqueDocuments(t.documents) && Derived(t, idOf) && DerivedInput(input, idOf)
    requires d in t.documents && t.documents[d].publicId == input.publicId
    ensures forall e | e in t.documents && t.documents[e].sourceId == input.sourceId && t.documents[e].stableKey == input.stableKey :: e == d
  {
  }

  lemma UpsertTakenExactly(t: Tables, owned: map<nat, OwnerToken>, d: nat, input: DocumentInput, o: Observation, now: int,
                           idOf: (nat, string) -> string)
    requires BaseConsistent(t) && Derived(t, idOf) && DerivedInput(input, idOf)
    requires d in t.documents && t.documents[d].publicId == input.publicId
    ensures Apply(t, owned, UpsertOp(input, Some(o), now, now)).error.None? <==>
              && t.documents[d].sourceId == input.sourceId && t.documents[d].stableKey == input.stableKey
              && UrlFree(t, input.sourceId, input.stableKey, input.canonicalUrl) && Recordable(t, owned, d, o)
  {
    hide UpsertDocumentRows, ResolvedDocument, Observe, RefreshedFor, BaseConsistent, UniqueDocuments, Recordable, UrlFree, Derived,
         DocumentsByPublicId, RowUpserted, UpsertShape, Misaddressed;
    BaseParts(t);
    KnownDocument(t, d, input, idOf);
    RowsWrittenExactly(t, input, now);
    if UpsertDocumentRows(t, input, now).Ok? {
      var w := UpsertDocumentRows(t, input, now).value;
      var x := t.(documents := w.documents);
      UpsertedRow(t, input, now);
      DerivedIsNeverMisaddressed(t, input, idOf);
      WrittenIsKnown(t, d, input, now);
      ObservedExactly(t, x, owned, d, o, now);
      SamePointer(t, w, owned, d, o);
    }
  }

  lemma WrittenIsKnown(t: Tables, d: nat, input: DocumentInput, now: int)
    requires UpsertDocumentRows(t, input, now).Ok? && d in t.documents && t.documents[d].publicId == input.publicId
    requires forall e | e in t.documents && t.documents[e].sourceId == input.sourceId && t.documents[e].stableKey == input.stableKey :: e == d
    ensures UpsertDocumentRows(t, input, now).value.written == d
  {
    assert d in DocumentsByPublicId(t.documents, input.publicId);
  }

  lemma SamePointer(t: Tables, w: DocumentWrite, owned: map<nat, OwnerToken>, d: nat, o: Observation)
    requires UpsertShape(t, w, d) && w.written == d && d in t.documents
    ensures Recordable(t.(documents := w.documents), owned, d, o) <==> Recordable(t, owned, d, o)
  {
  }

  lemma TouchOutcome(t: Tables, owned: map<nat, OwnerToken>, d: nat, o: Observation, now: int)
    requires d in t.documents
    ensures var out := Apply(t, owned, TouchOp(d, Some(o), now));
            && (out.error.None? <==> Recordable(t, owned, d, o))
            && (out.error.None? ==> OnlyDocument(t, out.tables, d, t.documents[d].(lastSeenAt := now), o, now))
  {
    hide Observe, Projection, Recorded, SameVersionShape;
    var x := t.(documents := t.documents[d := t.documents[d].(lastSeenAt := now)]);
    ObservedExactly(t, x, owned, d, o, now);
    ObservedOutcome(t, x, owned, d, o, now);
  }

  lemma RecordOutcome(t: Tables, owned: map<nat, OwnerToken>, d: nat, o: Observation, now: int)
    requires d in t.documents
    ensures var out := Apply(t, owned, RecordOp(d, o, now));
            && (out.error.None? <==> Recordable(t, owned, d, o))
            && (out.error.None? ==> OnlyDocument(t, out.tables, d, t.documents[d], o, now))
  {
    hide Observe, Projection, Recorded, SameVersionShape;
    ObservedExactly(t, t, owned, d, o, now);
    ObservedOutcome(t, t, owned, d, o, now);
  }

  lemma ObservedOutcome(t: Tables, x: Tables, owned: map<nat, OwnerToken>, d: nat, o: Observation, now: int)
    requires x == t.(documents := x.documents)
    ensures var out := Observe(t, x, owned, d, Some(o), now);
            out.error.None? ==>
              && Reindexed(out.tables).documents == x.documents && Reindexed(out.tables).sections == t.sections
              && Reindexed(out.tables).sources == t.sources && SameVersionShape(t.versions, Reindexed(out.tables).versions)
              && Recorded(t, Reindexed(out.tables), d, Some(o), now)
  {
    hide Observe, Projection, Recorded, SameVersionShape;
    var out := Observe(t, x, owned, d, Some(o), now);
    if out.error.None? {
      ObservedShape(t, x, owned, d, Some(o), now);
      FinishedTables(t, x, owned, d, Some(o), now, t.documents, d);
      RecordedAlike(t, x, out.tables, Reindexed(out.tables), d, Some(o), now);
    }
  }

  /*** Committed pages ***/

  // The page's row, as it was asked for and fetched.
  predicate PageRow(row: Document, input: DocumentInput, now: int) {
    && row.publicId == input.publicId && row.sourceId == input.sourceId && row.stableKey == input.stableKey
    && row.canonicalUrl == input.canonicalUrl && row.title == input.title && row.language == input.language
    && row.status == input.status && row.lastSeenAt == now && row.currentVersion.Some?
  }

  // Its one current version, with exactly the sections given.
  ghost predicate PageVersion(u: Tables, d: nat, v: nat, version: VersionInput, sections: seq<SectionInput>) {
    && v in u.versions && u.versions[v].documentId == d && u.versions[v].isCurrent && !u.versions[v].pendingCurrent
    && u.versions[v].contentHash == version.contentHash && u.versions[v].metadata == version.metadata
    && StoresSections(u.sections, v, sections)
  }

  // A page was committed as document d, and no other document row changed.
  ghost predicate PageStored(t: Tables, u: Tables, d: nat, input: DocumentInput, version: VersionInput, sections: seq<SectionInput>,
                             observation: Observation, times: CommitTimes)
  {
    && d in u.documents && u.documents == t.documents[d := u.documents[d]] && PageRow(u.documents[d], input, times.document)
    && PageVersion(u, d, u.documents[d].currentVersion.value, version, sections)
    && Recorded(t, u, d, Some(observation), times.pointer)
  }

  lemma CommitOutcome(t: Tables, owned: map<nat, OwnerToken>, revision: RevisionInput, o: Observation, times: CommitTimes,
                      idOf: (nat, string) -> string)
    requires BaseConsistent(t) && Derived(t, idOf) && DerivedInput(revision.document, idOf)
    ensures var out := Apply(t, owned, CommitOp(revision, Some(o), times));
            out.error.None? ==>
              exists d :: PageStored(t, out.tables, d, revision.document, revision.version, revision.sections, o, times)
  {
    hide Commit, BaseConsistent, Derived, RowsCommitted, ReadsBack, SameOutsideDocument, Recorded, AsRefreshed, PageStored;
    var out := Commit(t, owned, revision, Some(o), times);
    if out.error.None? {
      CommitReadsBack(t, owned, revision, Some(o), times);
      BaseParts(t);
      DerivedIsNeverMisaddressed(t, revision.document, idOf);
      var a, d :| Committed(t, out.tables, a, d, revision, Some(o), times);
      PageReadsBack(t, out.tables, a, d, revision, o, times);
    }
  }

  lemma PageReadsBack(t: Tables, u: Tables, a: nat, d: nat, revision: RevisionInput, o: Observation, times: CommitTimes)
    requires RowsCommitted(t, u, a, d, revision, times) && ReadsBack(u, d, revision, times, RefreshedValidators(Some(o)))
    requires !Misaddressed(t, revision.document, a, d) && Recorded(t, u, d, Some(o), times.pointer)
    ensures a == d && PageStored(t, u, d, revision.document, revision.version, revision.sections, o, times)
  {
    hide Misaddressed, StoresSections, Recorded;
  }


  // The document is found by key exactly if it is found by public id; a new one needs its source.
  predicate Nameable(t: Tables, input: DocumentInput) {
    if exists d :: d in t.documents && t.documents[d].sourceId == input.sourceId && t.documents[d].stableKey == input.stableKey
    then exists d :: d in t.documents && t.documents[d].publicId == input.publicId
    else input.sourceId in t.sources && forall d :: d in t.documents ==> t.documents[d].publicId != input.publicId
  }

  predicate Storable(sections: seq<SectionInput>) {
    && 0 < |sections| <= 1024
    && forall i, j :: 0 <= i < j < |sections| ==> sections[i].ordinal != sections[j].ordinal
  }

  lemma CommitTakenExactly(t: Tables, owned: map<nat, OwnerToken>, revision: RevisionInput, o: Observation, times: CommitTimes)
    requires BaseConsistent(t)
    ensures Apply(t, owned, CommitOp(revision, Some(o), times)).error.None? <==>
              && Storable(revision.sections) && Nameable(t, revision.document) && Leased(t, owned, o)
              && UrlFree(t, revision.document.sourceId, revision.document.stableKey, revision.document.canonicalUrl)
  {
    hide Apply, Commit, UpsertDocumentRows, ResolvedDocument, Observe, BaseConsistent, UniqueDocuments, UrlFree, RevisionRows,
         DocumentsByPublicId, RowUpserted, UpsertShape, Misaddressed, Leased, Storable, Nameable, Recordable;
    BaseParts(t);
    var input := revision.document;
    RowsWrittenExactly(t, input, times.document);
    RevisionTakenExactly(t, revision, times);
    NameableExactly(t, input, times.document);
    CommitStages(t, owned, revision, o, times);
    if UpsertDocumentRows(t, input, times.document).Ok? {
      var w := UpsertDocumentRows(t, input, times.document).value;
      var d := ResolvedDocument(w, input);
      if RevisionRows(t, w.documents, d, revision, times).Ok? {
        UpsertedRow(t, input, times.document);
        ShapeHasRow(t, w, d);
        RevisionKeepsPublicIds(t, w, d, revision, times);
        ObservedExactly(t, RevisionRows(t, w.documents, d, revision, times).value, owned, d, o, times.pointer);
        RecordableAfterRevision(t, w, d, revision, times, owned, o);
      }
    }
  }

  lemma CommitStages(t: Tables, owned: map<nat, OwnerToken>, revision: RevisionInput, o: Observation, times: CommitTimes)
    ensures Apply(t, owned, CommitOp(revision, Some(o), times)).error.None? <==>
              && revision.sections != [] && UpsertDocumentRows(t, revision.document, times.document).Ok?
              && var w := UpsertDocumentRows(t, revision.document, times.document).value;
                 var d := ResolvedDocument(w, revision.document);
                 (&& RevisionRows(t, w.documents, d, revision, times).Ok?
                  && var x := RevisionRows(t, w.documents, d, revision, times).value;
                     (&& Observe(t, x, owned, d, Some(o), times.pointer).error.None?
                      && DocumentsByPublicId(x.documents, revision.document.publicId) != {}))
  {
    hide UpsertDocumentRows, ResolvedDocument, Observe, RefreshedFor, RevisionRows, DocumentsByPublicId;
  }

  lemma RevisionTakenExactly(t: Tables, revision: RevisionInput, times: CommitTimes)
    ensures Storable(revision.sections) ==> revision.sections != []
    ensures forall documents, d ::
              RevisionRows(t, documents, d, revision, times).Ok? && revision.sections != [] <==> Storable(revision.sections)
  {
    hide UpsertVersionRow, ClearCurrentVersions, SectionsWithout, NumberedSections, NextRowId, PointedTo;
  }

  // A row is written and the public id names one afterwards.
  lemma NameableExactly(t: Tables, input: DocumentInput, now: int)
    requires UniqueDocuments(t.documents)
    ensures Nameable(t, input) && UrlFree(t, input.sourceId, input.stableKey, input.canonicalUrl) <==>
              && UpsertDocumentRows(t, input, now).Ok?
              && DocumentsByPublicId(UpsertDocumentRows(t, input, now).value.documents, input.publicId) != {}
  {
    hide UniqueDocuments, UrlFree;
    RowsWrittenExactly(t, input, now);
    if UpsertDocumentRows(t, input, now).Ok? {
      var named := DocumentsByPublicId(UpsertDocumentRows(t, input, now).value.documents, input.publicId);
      NamedAfterwards(t, input, now);
      if d :| d in t.documents && t.documents[d].publicId == input.publicId {
        assert d in named;
      }
    }
  }

  lemma NamedAfterwards(t: Tables, input: DocumentInput, now: int)
    requires UpsertDocumentRows(t, input, now).Ok?
    ensures var w := UpsertDocumentRows(t, input, now).value;
            && (w.written in t.documents <==>
                  exists d :: d in t.documents && t.documents[d].sourceId == input.sourceId && t.documents[d].stableKey == input.stableKey)
            && (if w.written in t.documents then DocumentsByPublicId(w.documents, input.publicId) == DocumentsByPublicId(t.documents, input.publicId)
                else w.written in DocumentsByPublicId(w.documents, input.publicId))
  {
    var matches := DocumentsByKey(t.documents, input.sourceId, input.stableKey);
    if d :| d in t.documents && t.documents[d].sourceId == input.sourceId && t.documents[d].stableKey == input.stableKey {
      assert d in matches;
    }
  }

  lemma RecordableAfterRevision(t: Tables, w: DocumentWrite, d: nat, revision: RevisionInput, times: CommitTimes,
                                owned: map<nat, OwnerToken>, o: Observation)
    requires d in w.documents && RevisionRows(t, w.documents, d, revision, times).Ok?
    ensures Recordable(RevisionRows(t, w.documents, d, revision, times).value, owned, d, o) <==> Leased(t, owned, o)
  {
    hide ClearCurrentVersions, ReplacedSections;
  }

  /*** The outcomes ***/

  // A page answered with 410 or 404 leaves its document removed or stale, with the URL, title and
  // language it was read with, its version and its sections.
  lemma MissingPages(st: State, turn: Turn, idOf: (nat, string) -> string)
    requires Applies(st, turn, idOf) && turn.fetch.Missing? && turn.existing.Some?
    ensures var t, d, row := st.tables, turn.existing.value.id, turn.existing.value.row;
            && (TurnSucceeds(st, turn) <==>
                  && t.documents[d].sourceId == turn.requested.sourceId && t.documents[d].stableKey == turn.requested.stableKey
                  && UrlFree(t, turn.requested.sourceId, turn.requested.stableKey, row.canonicalUrl)
                  && Recordable(t, TokensOf(st, turn.store), d, turn.observation))
            && (TurnSucceeds(st, turn) ==>
                  OnlyDocument(t, TablesAfter(st, turn), d,
                               t.documents[d].(status := if turn.fetch.gone then Removed else Stale, canonicalUrl := row.canonicalUrl,
                                               title := row.title, language := row.language, lastSeenAt := turn.now, updatedAt := turn.now),
                               turn.observation, turn.now))
  {
    hide Apply, Derived, BaseConsistent, UrlFree, Recordable, OnlyDocument, TurnSucceeds, EventsOf, After;
    OneTurn(st, turn);
    var owned, d := TokensOf(st, turn.store), turn.existing.value.id;
    var input := WriteOf(turn).value.document;
    UpsertTakenExactly(st.tables, owned, d, input, turn.observation, turn.now, idOf);
    UpsertOutcome(st.tables, owned, d, input, turn.observation, turn.now, idOf);
  }

  // A page that was not modified leaves its document redirected to the target of a permanent
  // redirect exactly if it was not there yet, and otherwise only seen again.
  lemma UnmodifiedPages(st: State, turn: Turn, idOf: (nat, string) -> string)
    requires Applies(st, turn, idOf) && turn.fetch.NotModified? && turn.existing.Some? && turn.hasVersion
    ensures var t, d, row, target := st.tables, turn.existing.value.id, turn.existing.value.row, turn.fetch.redirectTarget;
            var moves := target.Some? && !(row.canonicalUrl == target.value && row.status == Redirected);
            && (TurnSucceeds(st, turn) <==>
                  && Recordable(t, TokensOf(st, turn.store), d, turn.observation)
                  && (moves ==>
                        && t.documents[d].sourceId == row.sourceId && t.documents[d].stableKey == row.stableKey
                        && UrlFree(t, row.sourceId, row.stableKey, target.value)))
            && (TurnSucceeds(st, turn) ==>
                  OnlyDocument(t, TablesAfter(st, turn), d,
                               if moves
                               then t.documents[d].(status := Redirected, canonicalUrl := target.value, title := row.title,
                                                    language := row.language, lastSeenAt := turn.now, updatedAt := turn.now)
                               else t.documents[d].(lastSeenAt := turn.now),
                               turn.observation, turn.now))
  {
    hide Apply, Derived, BaseConsistent, UrlFree, Recordable, OnlyDocument, TurnSucceeds, EventsOf, After;
    OneTurn(st, turn);
    var owned, d := TokensOf(st, turn.store), turn.existing.value.id;
    var op := WriteOf(turn).value;
    if op.UpsertOp? {
      UpsertTakenExactly(st.tables, owned, d, op.document, turn.observation, turn.now, idOf);
      UpsertOutcome(st.tables, owned, d, op.document, turn.observation, turn.now, idOf);
    } else {
      TouchOutcome(st.tables, owned, d, turn.observation, turn.now);
    }
  }

  // A page that was fetched is stored: its row with the URL and title fetched, redirected exactly if
  // the redirect was permanent and active otherwise, its version current and its sections stored.
  lemma FetchedPages(st: State, turn: Turn, idOf: (nat, string) -> string)
    requires Applies(st, turn, idOf) && turn.fetch.Fetched?
    ensures var page, requested := turn.fetch, turn.requested;
            var input := DocumentInput(requested.publicId, requested.sourceId, page.canonicalUrl, requested.stableKey, page.title,
                                       requested.language, if page.redirectedPermanently then Redirected else Active);
            && (TurnSucceeds(st, turn) <==>
                  && Storable(page.sections) && Nameable(st.tables, input) && Leased(st.tables, TokensOf(st, turn.store), turn.observation)
                  && UrlFree(st.tables, requested.sourceId, requested.stableKey, page.canonicalUrl))
            && (TurnSucceeds(st, turn) ==>
                  exists d :: PageStored(st.tables, TablesAfter(st, turn), d, input, page.version, page.sections, turn.observation, turn.times))
  {
    hide Apply, Derived, BaseConsistent, UrlFree, Leased, Storable, Nameable, PageStored, TurnSucceeds, EventsOf, After;
    OneTurn(st, turn);
    var owned, revision := TokensOf(st, turn.store), WriteOf(turn).value.revision;
    CommitTakenExactly(st.tables, owned, revision, turn.observation, turn.times);
    CommitOutcome(st.tables, owned, revision, turn.observation, turn.times, idOf);
  }

  // A source that could not be reached changes no document row; only the observation is recorded.
  lemma UnreachablePages(st: State, turn: Turn, idOf: (nat, string) -> string)
    requires Applies(st, turn, idOf) && turn.fetch.Unavailable? && turn.existing.Some?
    ensures var t, d := st.tables, turn.existing.value.id;
            && (TurnSucceeds(st, turn) <==> Recordable(t, TokensOf(st, turn.store), d, turn.observation))
            && (TurnSucceeds(st, turn) ==> OnlyDocument(t, TablesAfter(st, turn), d, t.documents[d], turn.observation, turn.now))
            && TablesAfter(st, turn).documents == t.documents
  {
    hide Apply, Derived, BaseConsistent, Recordable, TurnSucceeds, EventsOf, After;
    OneTurn(st, turn);
    var owned, d := TokensOf(st, turn.store), turn.existing.value.id;
    RecordOutcome(st.tables, owned, d, turn.observation, turn.now);
    StaleWritersChangeNothing(st.tables, owned, WriteOf(turn).value);
  }

  // Any other failure changes nothing, and neither does an answer about a document, or a version of
  // it, that the catalog did not have.
  lemma OtherPages(st: State, turn: Turn)
    requires turn.Sync?
    requires || turn.fetch.OtherFailure? || (turn.existing.None? && !turn.fetch.Fetched?)
             || (turn.fetch.NotModified? && !turn.hasVersion)
    ensures After(st, EventsOf([turn])) == st
  {
    OneTurn(st, turn);
  }

  // A write that is refused leaves every table as it was.
  lemma RefusedTurns(st: State, turn: Turn)
    requires turn.Sync? && !TurnSucceeds(st, turn)
    ensures TablesAfter(st, turn) == st.tables
  {
    hide Apply, TurnSucceeds, EventsOf, After;
    OneTurn(st, turn);
    StaleWritersChangeNothing(st.tables, TokensOf(st, turn.store), WriteOf(turn).value);
  }
}
