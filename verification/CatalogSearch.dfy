// A committed page in the search index: which rows it gets and what they say.
module CatalogSearch {
  import opened Prelude
  import opened CatalogTables
  import opened CatalogInvariant
  import opened CatalogObservations
  import opened CatalogTransactions
  import opened CatalogIndexing
  import opened CatalogHistory
  import opened CatalogAgreement
  import opened CatalogEffects
  import opened CatalogRuns
  import opened CatalogRepair
  import opened CatalogColumns

  // The document found by key is the one found by public id.
  predicate NamedOnce(t: Tables, input: DocumentInput) {
    forall a, b | a in t.documents && b in t.documents ::
      t.documents[a].sourceId == input.sourceId && t.documents[a].stableKey == input.stableKey && t.documents[b].publicId == input.publicId ==>
        a == b
  }

  predicate EnabledSource(t: Tables, sourceId: nat) {
    sourceId in t.sources && t.sources[sourceId].enabled
  }

  // Document d has the input's fields and, as its current version, sections under consecutive ids.
  predicate PageHeld(t: Tables, d: nat, first: nat, revision: RevisionInput) {
    && d in t.documents
    && var row := t.documents[d];
       && row.sourceId == revision.document.sourceId && row.sourceId in t.sources && row.title == revision.document.title
       && row.language == revision.document.language && row.status == revision.document.status && row.currentVersion.Some?
       && row.currentVersion.value in t.versions && t.versions[row.currentVersion.value].documentId == d
       && t.versions[row.currentVersion.value].isCurrent
       && StoredFrom(t.sections, row.currentVersion.value, revision.sections, first)
  }

  // The index row says what the section, and the page it is of, said.
  predicate Says(row: IndexRow, t: Tables, d: nat, document: DocumentInput, section: SectionInput) {
    && document.sourceId in t.sources
    && row == IndexRow(d, t.sources[document.sourceId].key, document.language, document.title, OrEmpty(section.heading),
                       OrEmpty(section.headingPath), section.content)
  }

  // Each section has its row in the index.
  predicate PageShown(t: Tables, d: nat, first: nat, revision: RevisionInput) {
    forall s: nat | first <= s < first + |revision.sections| ::
      s in t.index && Says(t.index[s], t, d, revision.document, revision.sections[s - first])
  }

  lemma HeldIsDisplayed(t: Tables, d: nat, first: nat, revision: RevisionInput, s: nat)
    requires PageHeld(t, d, first, revision) && first <= s < first + |revision.sections|
    requires revision.document.status.Active? && t.sources[revision.document.sourceId].enabled
    ensures Displayed(t, s)
    ensures s in Projection(t) && Says(Projection(t)[s], t, d, revision.document, revision.sections[s - first])
  {
    hide Projection;
    RebuiltColumns(t);
    var input := revision.sections[s - first];
    assert first + (s - first) in t.sections && t.sections[s].versionId == t.documents[d].currentVersion.value;
    assert Shows(t, s, Projection(t)[s]);
  }

  lemma CommittedIsHeld(t: Tables, u: Tables, a: nat, d: nat, revision: RevisionInput, observation: Option<Observation>,
                        times: CommitTimes) returns (first: nat)
    requires BaseConsistent(t) && Committed(t, u, a, d, revision, observation, times) && NamedOnce(t, revision.document)
    requires revision.document.sourceId in t.sources
    ensures a == d && u.sources == t.sources && PageHeld(u, d, first, revision)
  {
    hide BaseConsistent, Recorded, DocumentSections;
    assert a == d;
    first :| StoredFrom(u.sections, u.documents[d].currentVersion.value, revision.sections, first);
  }

  // A new section's id is in the way of nothing that is not cleared, unless the commit collides.
  lemma FreshIds(t: Tables, w: DocumentWrite, d: nat, revision: RevisionInput, times: CommitTimes, s: nat)
    requires ReferencesResolve(t) && RevisionRows(t, w.documents, d, revision, times).Ok? && !Collides(t, w, d, revision, times)
    requires UniqueVersions(t.versions) && UpsertShape(t, w, d) && w.written == d
    requires w.documents[d].status.Active? && w.documents[d].sourceId in t.sources && t.sources[w.documents[d].sourceId].enabled
    requires var x := RevisionRows(t, w.documents, d, revision, times).value;
             s in x.sections && x.sections[s].versionId == RevisionVersion(t.versions, d, revision, times)
    ensures Astray(t, s) ==> s in DocumentSections(t, d)
  {
    hide ReferencesResolve, UniqueVersions, RevisionRows, RevisionVersion, Projection, VersionProjection, Promoted;
    var x := RevisionRows(t, w.documents, d, revision, times).value;
    var v := RevisionVersion(t.versions, d, revision, times);
    CommittedRows(t, w, d, revision, times);
    SourcesStay(t, AsRefreshed(x, t.documents, w.written, d), d, v);
    FreshRow(x.(documents := w.documents), d, v, s);
    if s in Projection(t) {
      OldIdOfDocument(t, AsRefreshed(x, t.documents, w.written, d), d, v, s);
    }
  }

  lemma OldIdOfDocument(t: Tables, u: Tables, d: nat, v: nat, s: nat)
    requires ReferencesResolve(t) && Promoted(t, u, d, v) && s in Projection(t) && s in u.sections && u.sections[s].versionId == v
    ensures s in DocumentSections(t, d)
  {
  }

  lemma SourcesStay(t: Tables, u: Tables, d: nat, v: nat)
    requires Promoted(t, u, d, v)
    ensures u.sources == t.sources
  {
  }

  lemma FreshRow(x: Tables, d: nat, v: nat, s: nat)
    requires s in x.sections && x.sections[s].versionId == v && v in x.versions && x.versions[v].documentId == d
    requires d in x.documents && x.documents[d].status.Active? && x.documents[d].sourceId in x.sources && x.sources[x.documents[d].sourceId].enabled
    ensures s in VersionProjection(x, v)
  {
  }

  // A page committed to an enabled source as an active document has one index row for each section,
  // whatever rows were left over before.
  lemma CommittedPagesAreShown(t: Tables, owned: map<nat, OwnerToken>, revision: RevisionInput, observation: Option<Observation>,
                               times: CommitTimes)
    requires BaseConsistent(t) && NamedOnce(t, revision.document)
    requires EnabledSource(t, revision.document.sourceId) && revision.document.status == Active
    ensures var out := Execute(t, owned, CommitOp(revision, observation, times));
            out.error.None? ==>
              exists d, first :: PageHeld(out.tables, d, first, revision) && PageShown(out.tables, d, first, revision)
  {
    hide Execute, BaseConsistent, PageHeld, PageShown, UpsertDocumentRows, ResolvedDocument, Committed, NamedOnce, Commit, CommitCollides,
         ClearedFor, AstrayUncleared, UpsertShape, Collides, RevisionRows, RevisionVersion;
    var out := Execute(t, owned, CommitOp(revision, observation, times));
    if out.error.None? {
      ExecutedCommit(t, owned, revision, observation, times);
      CommittedFrom(t, owned, revision, observation, times);
      CommitReadsBackFrom(t, owned, revision, observation, times);
      var w := UpsertDocumentRows(t, revision.document, times.document).value;
      var d := ResolvedDocument(w, revision.document);
      var u := Commit(t, owned, revision, observation, times).tables;
      var first := CommittedIsHeld(t, u, w.written, d, revision, observation, times);
      HeldInAnyIndex(u, out.tables.index, d, first, revision);
      HeldFields(u, d, first, revision);
      BaseParts(t);
      forall s: nat | first <= s < first + |revision.sections|
        ensures !Astray(out.tables, s)
      {
        FreshIds(t, w, d, revision, times, s);
        NotAstray(t, out.tables, w, d, revision, times, s);
      }
      ShownWhereNotAstray(out.tables, d, first, revision);
    }
  }

  lemma NotAstray(t: Tables, u: Tables, w: DocumentWrite, d: nat, revision: RevisionInput, times: CommitTimes, s: nat)
    requires UpsertDocumentRows(t, revision.document, times.document) == Ok(w) && d == ResolvedDocument(w, revision.document)
    requires AstrayUncleared(t, u, ClearedFor(t, revision.document, times.document)) && (Astray(t, s) ==> s in DocumentSections(t, d))
    ensures !Astray(u, s)
  {
    hide UpsertDocumentRows, ResolvedDocument, Astray, DocumentSections;
  }

  lemma HeldInAnyIndex(u: Tables, index: map<nat, IndexRow>, d: nat, first: nat, revision: RevisionInput)
    requires PageHeld(u, d, first, revision)
    ensures PageHeld(u.(index := index), d, first, revision)
  {
  }

  lemma HeldFields(u: Tables, d: nat, first: nat, revision: RevisionInput)
    requires PageHeld(u, d, first, revision)
    ensures d in u.documents && u.documents[d].status == revision.document.status && u.documents[d].sourceId == revision.document.sourceId
    ensures u.documents[d].currentVersion.Some?
    ensures forall s: nat | first <= s < first + |revision.sections| ::
              s in u.sections && u.sections[s].versionId == u.documents[d].currentVersion.value
  {
    forall s: nat | first <= s < first + |revision.sections|
      ensures s in u.sections && u.sections[s].versionId == u.documents[d].currentVersion.value
    {
      var input := revision.sections[s - first];
      assert first + (s - first) in u.sections;
    }
  }

  lemma ShownWhereNotAstray(u: Tables, d: nat, first: nat, revision: RevisionInput)
    requires PageHeld(u, d, first, revision) && revision.document.status.Active?
    requires revision.document.sourceId in u.sources && u.sources[revision.document.sourceId].enabled
    requires forall s: nat | first <= s < first + |revision.sections| :: !Astray(u, s)
    ensures PageShown(u, d, first, revision)
  {
    hide Projection, PageHeld;
    forall s: nat | first <= s < first + |revision.sections|
      ensures s in u.index && Says(u.index[s], u, d, revision.document, revision.sections[s - first])
    {
      HeldIsDisplayed(u, d, first, revision, s);
      assert !Astray(u, s);
    }
  }

  lemma ExecutedCommit(t: Tables, owned: map<nat, OwnerToken>, revision: RevisionInput, observation: Option<Observation>, times: CommitTimes)
    requires BaseConsistent(t) && NamedOnce(t, revision.document)
    ensures var out := Execute(t, owned, CommitOp(revision, observation, times));
            var applied := Commit(t, owned, revision, observation, times);
            out.error.None? ==>
              && applied.error.None? && out.tables == applied.tables.(index := out.tables.index) && !CommitCollides(t, revision, times)
              && AstrayUncleared(t, out.tables, ClearedFor(t, revision.document, times.document))
  {
    hide BaseConsistent, Commit, AstrayUncleared, CommitCollides, ClearedFor;
    NeverMisses(t, revision.document);
    if !CommitCollides(t, revision, times) {
      CommitRepairs(t, owned, revision, observation, times);
    }
  }

  // What a commit that succeeds has written, before its observation and its index rows.
  lemma CommittedFrom(t: Tables, owned: map<nat, OwnerToken>, revision: RevisionInput, observation: Option<Observation>, times: CommitTimes)
    requires BaseConsistent(t) && Commit(t, owned, revision, observation, times).error.None?
    ensures UpsertDocumentRows(t, revision.document, times.document).Ok?
    ensures var u := Commit(t, owned, revision, observation, times).tables;
            var w := UpsertDocumentRows(t, revision.document, times.document).value;
            var d := ResolvedDocument(w, revision.document);
            && UpsertShape(t, w, d) && RevisionRows(t, w.documents, d, revision, times).Ok?
            && u.sections == RevisionRows(t, w.documents, d, revision, times).value.sections
            && d in u.documents && u.documents[d].currentVersion == Some(RevisionVersion(t.versions, d, revision, times))
            && w.documents[d].status == u.documents[d].status && w.documents[d].sourceId == u.documents[d].sourceId
            && (!CommitCollides(t, revision, times) ==> !Collides(t, w, d, revision, times))
  {
    hide BaseConsistent, UpsertDocumentRows, ResolvedDocument, Observe, RefreshedFor, RevisionRows, RevisionVersion, UpsertShape, Collides,
         DocumentsByPublicId;
    BaseParts(t);
    UpsertDocumentFacts(t, revision.document, times.document);
    var w := UpsertDocumentRows(t, revision.document, times.document).value;
    var d := ResolvedDocument(w, revision.document);
    var x := RevisionRows(t, w.documents, d, revision, times).value;
    ShapeHasRow(t, w, d);
    FinishedTables(t, x, owned, d, observation, times.pointer, t.documents, w.written);
    PointedRow(t, w.documents, d, revision, times);
  }

  lemma PointedRow(t: Tables, documents: map<nat, Document>, d: nat, revision: RevisionInput, times: CommitTimes)
    requires RevisionRows(t, documents, d, revision, times).Ok? && d in documents
    ensures var x := RevisionRows(t, documents, d, revision, times).value;
            && d in x.documents && x.documents[d].currentVersion == Some(RevisionVersion(t.versions, d, revision, times))
            && documents[d].status == x.documents[d].status && documents[d].sourceId == x.documents[d].sourceId
  {
    hide ReplacedSections, UpsertVersionRow, ClearCurrentVersions;
  }

  // The document's index rows are exactly those of its sections if it is active and its source
  // enabled, and otherwise it has none.
  ghost predicate ShownExactly(t: Tables, d: nat, first: nat, revision: RevisionInput) {
    && PageHeld(t, d, first, revision)
    && var end := if revision.document.status == Active && t.sources[revision.document.sourceId].enabled
                  then first + |revision.sections| else first;
       forall s :: s in t.index && t.index[s].documentId == d <==> first <= s < end
  }

  // While the index agrees with the tables, a committed document has no other rows.
  lemma CommittedPagesHaveNoOtherRows(t: Tables, owned: map<nat, OwnerToken>, revision: RevisionInput, observation: Option<Observation>,
                                      times: CommitTimes)
    requires CatalogConsistent(t) && NamedOnce(t, revision.document) && revision.document.sourceId in t.sources
    ensures var out := Execute(t, owned, CommitOp(revision, observation, times));
            out.error.None? ==> exists d, first :: ShownExactly(out.tables, d, first, revision)
  {
    hide Execute, BaseConsistent, ShownExactly, PageHeld, UpsertDocumentRows, ResolvedDocument, Committed, NamedOnce, Commit, IndexAgrees,
         MissesARow;
    var out := Commit(t, owned, revision, observation, times);
    ConsistentExecutes(t, owned, CommitOp(revision, observation, times));
    if out.error.None? {
      NeverMisses(t, revision.document);
      CommitAgreesExactly(t, owned, revision, observation, times);
      CommitReadsBackFrom(t, owned, revision, observation, times);
      var w := UpsertDocumentRows(t, revision.document, times.document).value;
      var d := ResolvedDocument(w, revision.document);
      var first := CommittedIsHeld(t, out.tables, w.written, d, revision, observation, times);
      RowsOfHeld(out.tables, d, first, revision);
    }
  }

  lemma NeverMisses(t: Tables, input: DocumentInput)
    requires NamedOnce(t, input)
    ensures !MissesARow(t, input)
  {
  }

  lemma RowsOfHeld(u: Tables, d: nat, first: nat, revision: RevisionInput)
    requires IndexAgrees(u) && PageHeld(u, d, first, revision)
    ensures ShownExactly(u, d, first, revision)
  {
    hide Projection, IndexAgrees;
    AgreesExactly(u);
    HeldFields(u, d, first, revision);
    forall s | s in u.index && u.index[s].documentId == d
      ensures first <= s < first + |revision.sections|
      ensures revision.document.status == Active && u.sources[revision.document.sourceId].enabled
    {
      assert Displayed(u, s) && Shows(u, s, u.index[s]);
    }
    if revision.document.status == Active && u.sources[revision.document.sourceId].enabled {
      forall s | first <= s < first + |revision.sections|
        ensures s in u.index && u.index[s].documentId == d
      {
        HeldIsDisplayed(u, d, first, revision, s);
        assert Displayed(u, s) && Shows(u, s, u.index[s]);
      }
    }
  }
}
