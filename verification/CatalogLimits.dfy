// Concrete inputs on which the incremental statements leave the index different from a rebuild.
module CatalogLimits {
  import opened Prelude
  import opened CatalogTables
  import opened CatalogInvariant
  import opened CatalogTransactions
  import opened CatalogHistory
  import opened CatalogAgreement
  import opened CatalogEffects
  import opened CatalogIntegrity
  import opened CatalogIndexing
  import opened CatalogRepair

  const DOCS := Source("docs", "Docs", true, 0, 0)

  function Page(publicId: string, key: string, title: string, current: nat): Document {
    Document(publicId, 1, key, key, title, "en", Active, Some(current), 0, 0, 0)
  }

  function Stored(documentId: nat, hash: string): Version {
    Version(documentId, hash, None, None, 0, true, false, "")
  }

  // One active document whose current version has two sections.
  function TwoSections(): Tables {
    Reindexed(TwoSectionRows())
  }

  function TwoSectionRows(): Tables {
    Tables(map[1 := DOCS], map[1 := Page("p", "k", "Title", 1)], map[1 := Stored(1, "h")],
           map[1 := Section(1, 0, None, None, "one"), 2 := Section(1, 1, None, None, "two")],
           map[], map[], [], map[])
  }

  const REPLACEMENT := [SectionInput(0, None, None, "new")]

  lemma ReindexedConsistent(t: Tables)
    requires BaseConsistent(t)
    ensures CatalogConsistent(Reindexed(t))
  {
    IndexIsNotBase(t, Projection(t));
    ReindexedAgrees(t);
  }

  lemma TwoSectionsConsistent()
    ensures CatalogConsistent(TwoSections())
  {
    hide TwoSectionRows, BaseConsistent, CatalogConsistent;
    TwoSectionRowsConsistent();
    ReindexedConsistent(TwoSectionRows());
  }

  lemma TwoSectionsSearchable()
    ensures SearchableSection(TwoSections(), 2) && 2 in TwoSections().index
  {
    assert SearchableSection(TwoSectionRows(), 2);
    assert 2 in TwoSectionRows().sections;
  }

  lemma TwoSectionRowsConsistent()
    ensures BaseConsistent(TwoSectionRows())
  {
    hide UniqueDocuments, PointersMatchFlags;
    assert UniqueDocuments(TwoSectionRows().documents) && PointersMatchFlags(TwoSectionRows().documents, TwoSectionRows().versions) by {
      OneDocumentAlone(TwoSectionRows().documents, TwoSectionRows().versions);
    }
  }

  lemma OneDocumentAlone(documents: map<nat, Document>, versions: map<nat, Version>)
    requires documents.Keys == {1} == versions.Keys
    requires documents[1].currentVersion == Some(1) && versions[1].documentId == 1
    requires versions[1].isCurrent && !versions[1].pendingCurrent
    ensures UniqueDocuments(documents) && PointersMatchFlags(documents, versions)
  {
  }

  lemma ReplacementRows()
    ensures SectionsWithout(TwoSections().sections, 1) == map[]
    ensures NextRowId({}) == 1 && DistinctOrdinals(REPLACEMENT)
    ensures ReplacedSections(TwoSections().sections, 1, REPLACEMENT).Ok?
    ensures 2 !in ReplacedSections(TwoSections().sections, 1, REPLACEMENT).value
  {
    hide Projection;
    var kept := SectionsWithout(TwoSections().sections, 1);
    assert kept == map[] && kept.Keys == {};
    NumberedRows(1, 1, REPLACEMENT);
  }

  // Replacing them by a single section reuses id 1 and leaves the row of id 2 in the index.
  lemma ReplacingCurrentSectionsStrandsRows(owned: map<nat, OwnerToken>, now: int)
    ensures var op := ReplaceSectionsOp(1, REPLACEMENT, now);
            && CatalogConsistent(TwoSections()) && Apply(TwoSections(), owned, op).error.None?
            && !IndexAgrees(Apply(TwoSections(), owned, op).tables)
            && 2 in OrphanedRows(Apply(TwoSections(), owned, op).tables)
  {
    hide CatalogConsistent, Projection, SearchableSection, ReplacedSections, NextRowId;
    TwoSectionsConsistent();
    TwoSectionsSearchable();
    ReplacementRows();
    var t := TwoSections();
    assert StrandsARow(t, 1, REPLACEMENT);
    var out := ReplaceSections(t, owned, 1, REPLACEMENT, now);
    assert 2 in StrandedRows(t, t.(sections := ReplacedSections(t.sections, 1, REPLACEMENT).value));
    assert out.error.None? && 2 in out.tables.index;
    StepAgreesExactly(t, owned, ReplaceSectionsOp(1, REPLACEMENT, now));
  }

  const BOTH: set<nat> := {1, 2}

  function TwoDocumentRows(): Tables {
    Tables(map[1 := DOCS],
           map i | i in BOTH :: if i == 1 then Page("a", "x", "First", 1) else Page("b", "y", "Second", 2),
           map i | i in BOTH :: Stored(i, "h"),
           map i | i in BOTH :: Section(i, 0, None, None, "text"),
           map[], map[], [], map[])
  }

  // Two active documents with one section each.
  function TwoDocuments(): Tables {
    Reindexed(TwoDocumentRows())
  }

  // The first document's key with the second one's public id.
  const CROSSED := DocumentInput("b", 1, "x", "x", "Renamed", "en", Active)

  lemma TwoUniqueDocuments(documents: map<nat, Document>)
    requires documents.Keys == BOTH
    requires documents[1].publicId != documents[2].publicId && documents[1].stableKey != documents[2].stableKey
    requires documents[1].canonicalUrl != documents[2].canonicalUrl
    ensures UniqueDocuments(documents)
  {
  }

  lemma TwoDocumentRowsConsistent()
    ensures BaseConsistent(TwoDocumentRows())
  {
    hide UniqueDocuments, PointersMatchFlags, ReferencesResolve, UniqueVersions, UniqueSources;
    TwoDocumentRowsUnique();
    TwoDocumentRowsPointers();
    TwoDocumentRowsReferences();
  }

  lemma TwoDocumentRowsReferences()
    ensures ReferencesResolve(TwoDocumentRows())
    ensures UniqueSources(TwoDocumentRows().sources) && UniqueVersions(TwoDocumentRows().versions)
  {
    assert UniqueVersions(TwoDocumentRows().versions);
    assert UniqueSources(TwoDocumentRows().sources);
    var t := TwoDocumentRows();
    assert forall d :: d in t.documents ==> t.documents[d].sourceId == 1;
    assert 1 in t.sources;
  }

  lemma TwoDocumentRowsPointers()
    ensures PointersMatchFlags(TwoDocumentRows().documents, TwoDocumentRows().versions)
  {
    assert forall i | i in BOTH :: TwoDocumentRows().documents[i].currentVersion == Some(i);
  }

  lemma TwoDocumentRowsUnique()
    ensures UniqueDocuments(TwoDocumentRows().documents)
  {
    hide UniqueDocuments;
    var a, b := TwoDocumentRows().documents[1], TwoDocumentRows().documents[2];
    assert a.publicId[0] != b.publicId[0] && a.stableKey[0] != b.stableKey[0];
    TwoUniqueDocuments(TwoDocumentRows().documents);
  }

  lemma TwoDocumentsConsistent()
    ensures CatalogConsistent(TwoDocuments())
  {
    hide TwoDocumentRows, BaseConsistent, CatalogConsistent;
    TwoDocumentRowsConsistent();
    ReindexedConsistent(TwoDocumentRows());
  }

  lemma FirstDocumentCanBeShown()
    ensures CanBeShown(TwoDocuments(), 1)
  {
    hide Projection;
    assert CurrentSection(TwoDocuments(), 1) && SectionDocument(TwoDocuments(), 1) == 1;
  }

  // The upsert renames the first document and refreshes the second: the index keeps the old title.
  lemma CrossedUpsertMissesARow(owned: map<nat, OwnerToken>, now: int)
    ensures var op := UpsertOp(CROSSED, None, now, now);
            && CatalogConsistent(TwoDocuments()) && Apply(TwoDocuments(), owned, op).error.None?
            && !IndexAgrees(Apply(TwoDocuments(), owned, op).tables)
  {
    hide CatalogConsistent, Projection, SearchableSection, CanBeShown;
    TwoDocumentsConsistent();
    FirstDocumentCanBeShown();
    var t := TwoDocuments();
    assert 1 in DocumentsByKey(t.documents, 1, "x");
    assert UrlConflicts(t.documents, CROSSED, {1}) == {};
    assert DocumentsByKey(t.documents, 1, "x") == {1};
    assert Misaddressed(t, CROSSED, 1, 2);
    assert MissesARow(t, CROSSED);
    StepAgreesExactly(t, owned, UpsertOp(CROSSED, None, now, now));
  }

  // A document registered as active before it has a version is an issue.
  lemma NewActiveDocumentIsReported(owned: map<nat, OwnerToken>, now: int)
    ensures var op := UpsertOp(DocumentInput("new", 1, "n", "n", "New", "en", Active), None, now, now);
            && Apply(TwoSections(), owned, op).error.None?
            && ActiveWithoutVersion(Apply(TwoSections(), owned, op).tables) != {}
  {
    hide Projection;
    var input := DocumentInput("new", 1, "n", "n", "New", "en", Active);
    var t := TwoSections();
    assert DocumentsByKey(t.documents, 1, "n") == {} == DocumentsByPublicId(t.documents, "new");
    assert UrlConflicts(t.documents, input, {}) == {};
    var w := UpsertDocumentRows(t, input, now).value;
    var u := Apply(t, owned, UpsertOp(input, None, now, now)).tables;
    assert u.documents == w.documents;
    assert w.written in ActiveWithoutVersion(u);
  }

  /*** These catalogs arise from an empty one ***/

  const EMPTY := Tables(map[], map[], map[], map[], map[], map[], [], map[])

  const AT_ZERO := CommitTimes(0, 0, 0)

  function OneSource(): Tables {
    EMPTY.(sources := map[1 := DOCS])
  }

  function RevisionOf(publicId: string, key: string, title: string, sections: seq<SectionInput>): RevisionInput {
    RevisionInput(DocumentInput(publicId, 1, key, key, title, "en", Active), VersionInput(0, "h", None, None, "", false), sections)
  }

  // An empty catalog is one that the histories of service calls can start from.
  lemma EmptyIsConsistent()
    ensures CatalogConsistent(EMPTY) && LedgerResolves(EMPTY) && NothingMissing(EMPTY)
  {
    assert Projection(EMPTY) == map[];
  }

  lemma SourceAdded(owned: map<nat, OwnerToken>)
    ensures Apply(EMPTY, owned, AddSourceOp(SourceInput("docs", "Docs", true), 0)).tables == OneSource()
  {
    hide Projection;
    assert NextRowId(EMPTY.sources.Keys) == 1;
    var x := EMPTY.(sources := map[1 := DOCS]);
    NothingToIndex(x);
    assert EMPTY.sources[1 := DOCS] == map[1 := DOCS];
  }

  lemma NothingToIndex(x: Tables)
    requires x.sections == map[]
    ensures Projection(x) == map[]
  {
  }

  lemma Committed(t: Tables, u: Tables, owned: map<nat, OwnerToken>, revision: RevisionInput)
    requires ReferencesResolve(t) && IsNew(t, revision.document)
    requires 0 < |revision.sections| <= 2 && DistinctOrdinals(revision.sections)
    requires WithDocument(t, revision, AT_ZERO) == u.(index := t.index)
    ensures Apply(t, owned, CommitOp(revision, None, AT_ZERO)).tables == Reindexed(u)
  {
    hide Projection, ReferencesResolve, IsNew, Commit, WithDocument, DistinctOrdinals;
    CommitOfNewDocument(t, owned, revision, AT_ZERO);
    SameCatalogSameProjection(u, u.(index := t.index));
  }

  const TWO := [SectionInput(0, None, None, "one"), SectionInput(1, None, None, "two")]
  const ONE := [SectionInput(0, None, None, "text")]

  lemma TwoSectionsWritten()
    ensures WithDocument(OneSource(), RevisionOf("p", "k", "Title", TWO), AT_ZERO) == TwoSectionRows().(index := OneSource().index)
  {
    assert OneSource().documents.Keys == {} == OneSource().versions.Keys == OneSource().sections.Keys;
    NumberedRows(1, 1, TWO);
    assert NumberedSections(1, 1, TWO) == TwoSectionRows().sections;
    var u := WithDocument(OneSource(), RevisionOf("p", "k", "Title", TWO), AT_ZERO);
    assert u.documents == TwoSectionRows().documents && u.versions == TwoSectionRows().versions;
    assert u.sections == TwoSectionRows().sections;
  }

  lemma PageIsNew()
    ensures ReferencesResolve(OneSource()) && IsNew(OneSource(), RevisionOf("p", "k", "Title", TWO).document)
    ensures DistinctOrdinals(TWO)
  {
  }

  // Adding a source and committing one revision gives the catalog whose index the replacement strands.
  lemma TwoSectionsArise(owned: map<nat, OwnerToken>)
    ensures CatalogConsistent(EMPTY) && LedgerResolves(EMPTY) && NothingMissing(EMPTY)
    ensures var t := Apply(EMPTY, owned, AddSourceOp(SourceInput("docs", "Docs", true), 0)).tables;
            Apply(t, owned, CommitOp(RevisionOf("p", "k", "Title", TWO), None, AT_ZERO)).tables == TwoSections()
  {
    hide Projection, TwoSectionRows, WithDocument, IsNew, ReferencesResolve, Apply, OneSource;
    EmptyIsConsistent();
    SourceAdded(owned);
    PageIsNew();
    TwoSectionsWritten();
    Committed(OneSource(), TwoSectionRows(), owned, RevisionOf("p", "k", "Title", TWO));
  }

  function OneDocumentRows(): Tables {
    OneSource().(documents := map[1 := Page("a", "x", "First", 1)], versions := map[1 := Stored(1, "h")],
                 sections := map[1 := Section(1, 0, None, None, "text")])
  }

  lemma OneDocumentWritten()
    ensures WithDocument(OneSource(), RevisionOf("a", "x", "First", ONE), AT_ZERO) == OneDocumentRows().(index := OneSource().index)
  {
    assert OneSource().documents.Keys == {} == OneSource().versions.Keys == OneSource().sections.Keys;
    NumberedRows(1, 1, ONE);
    var u := WithDocument(OneSource(), RevisionOf("a", "x", "First", ONE), AT_ZERO);
    assert u.documents == OneDocumentRows().documents && u.versions == OneDocumentRows().versions;
    assert u.sections == OneDocumentRows().sections;
  }

  lemma NextAfterOne()
    ensures NextRowId({1}) == 2
  {
  }

  lemma SecondDocumentWritten(index: map<nat, IndexRow>)
    ensures WithDocument(OneDocumentRows().(index := index), RevisionOf("b", "y", "Second", ONE), AT_ZERO)
            == TwoDocumentRows().(index := index)
  {
    var t := OneDocumentRows().(index := index);
    NextAfterOne();
    assert t.documents.Keys == {1} == t.versions.Keys == t.sections.Keys;
    NumberedRows(2, 2, ONE);
    var u := WithDocument(t, RevisionOf("b", "y", "Second", ONE), AT_ZERO);
    assert u.documents == TwoDocumentRows().documents;
    assert u.versions == TwoDocumentRows().versions;
    assert u.sections == TwoDocumentRows().sections;
  }

  lemma FirstIsNew()
    ensures IsNew(OneSource(), RevisionOf("a", "x", "First", ONE).document)
  {
  }

  lemma SecondIsNew(index: map<nat, IndexRow>)
    ensures IsNew(OneDocumentRows().(index := index), RevisionOf("b", "y", "Second", ONE).document)
    ensures ReferencesResolve(OneDocumentRows().(index := index))
  {
    assert "a"[0] != "b"[0] && "x"[0] != "y"[0];
  }

  // Adding a source and committing two documents gives the catalog that the crossed upsert misses a row of.
  lemma TwoDocumentsArise(owned: map<nat, OwnerToken>)
    ensures CatalogConsistent(EMPTY) && LedgerResolves(EMPTY) && NothingMissing(EMPTY)
    ensures var t := Apply(EMPTY, owned, AddSourceOp(SourceInput("docs", "Docs", true), 0)).tables;
            var u := Apply(t, owned, CommitOp(RevisionOf("a", "x", "First", ONE), None, AT_ZERO)).tables;
            Apply(u, owned, CommitOp(RevisionOf("b", "y", "Second", ONE), None, AT_ZERO)).tables == TwoDocuments()
  {
    hide Projection, TwoDocumentRows, WithDocument, OneDocumentRows, IsNew;
    EmptyIsConsistent();
    SourceAdded(owned);
    OneDocumentWritten();
    FirstIsNew();
    Committed(OneSource(), OneDocumentRows(), owned, RevisionOf("a", "x", "First", ONE));
    var u := Reindexed(OneDocumentRows());
    SecondDocumentWritten(u.index);
    SecondIsNew(u.index);
    Committed(u, TwoDocumentRows(), owned, RevisionOf("b", "y", "Second", ONE));
  }

  /*** A row left over keeps a document out ***/

  // What the replacement above leaves: one section, and two rows in the index.
  ghost function Stranded(owned: map<nat, OwnerToken>, now: int): Tables {
    Apply(TwoSections(), owned, ReplaceSectionsOp(1, REPLACEMENT, now)).tables
  }

  lemma StrandedTables(owned: map<nat, OwnerToken>, now: int)
    ensures var t := Stranded(owned, now);
            && 2 in t.index && t.sections == map[1 := Section(1, 0, None, None, "new")]
            && t.sources == map[1 := DOCS] && t.documents.Keys == {1} == t.versions.Keys == t.sections.Keys
            && t.documents[1] == Page("p", "k", "Title", 1) && t.versions[1] == Stored(1, "h")
  {
    hide Projection, SearchableSection, NextRowId, CatalogConsistent;
    ReplacingCurrentSectionsStrandsRows(owned, now);
    ReplacementRows();
    NumberedRows(1, 1, REPLACEMENT);
    var kept := SectionsWithout(TwoSections().sections, 1);
    assert kept == map[] && kept.Keys == {};
    assert NumberedSections(1, 1, REPLACEMENT) == map[1 := Section(1, 0, None, None, "new")];
    assert kept + NumberedSections(1, 1, REPLACEMENT) == map[1 := Section(1, 0, None, None, "new")];
  }

  // The next document's section gets the row id that is still in the index: its commit is refused.
  lemma StrandedRowBlocksCommit(owned: map<nat, OwnerToken>, now: int)
    ensures var t, op := Stranded(owned, now), CommitOp(RevisionOf("q", "l", "Other", ONE), None, AT_ZERO);
            Execute(t, owned, op).error == Some(ConstraintViolation) && Execute(t, owned, op).tables == t
  {
    hide Stranded, RevisionOf, Execute, CommitCollides, IsNew, ReferencesResolve;
    OtherFits(owned, now);
    OtherRevision();
    OtherCollides(Stranded(owned, now), RevisionOf("q", "l", "Other", ONE));
    CollisionRefuses(Stranded(owned, now), owned, CommitOp(RevisionOf("q", "l", "Other", ONE), None, AT_ZERO));
  }

  lemma OtherFits(owned: map<nat, OwnerToken>, now: int)
    ensures var t := Stranded(owned, now);
            && ReferencesResolve(t) && IsNew(t, RevisionOf("q", "l", "Other", ONE).document) && t.sources == map[1 := DOCS]
            && 2 in t.index && NextRowId(t.sections.Keys) == 2
  {
    hide Stranded, RevisionOf, Page, Stored, IsNew, ReferencesResolve;
    StrandedTables(owned, now);
    OtherIsNew(Stranded(owned, now));
    NextAfterOne();
  }

  lemma OtherRevision()
    ensures var revision := RevisionOf("q", "l", "Other", ONE);
            |revision.sections| == 1 && revision.document.status.Active? && revision.document.sourceId == 1
  {
  }

  lemma OtherCollides(t: Tables, revision: RevisionInput)
    requires ReferencesResolve(t) && IsNew(t, revision.document) && t.sources == map[1 := DOCS]
    requires |revision.sections| == 1 && revision.document.status.Active? && revision.document.sourceId == 1
    requires 2 in t.index && NextRowId(t.sections.Keys) == 2
    ensures CommitCollides(t, revision, AT_ZERO)
  {
    hide NextRowId, IsNew, ReferencesResolve, CommitCollides;
    assert 2 in t.index && 0 <= 2 - NextRowId(t.sections.Keys) < |revision.sections|;
    NewDocumentCollidesExactly(t, revision, AT_ZERO);
  }

  lemma OtherIsNew(t: Tables)
    requires t.sections == map[1 := Section(1, 0, None, None, "new")] && t.sources == map[1 := DOCS]
    requires t.documents.Keys == {1} == t.versions.Keys && t.documents[1] == Page("p", "k", "Title", 1) && t.versions[1] == Stored(1, "h")
    ensures IsNew(t, RevisionOf("q", "l", "Other", ONE).document) && ReferencesResolve(t)
  {
    assert "q"[0] != "p"[0] && "l"[0] != "k"[0];
    assert 1 in t.sources && 1 in t.documents && 1 in t.versions;
    assert forall s :: s in t.sections ==> s == 1;
  }
}
