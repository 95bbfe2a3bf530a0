// Why refreshing one document's index rows gives the same index as rebuilding all of them.
module CatalogIndexing {
  import opened Prelude
  import opened CatalogTables
  import opened CatalogInvariant
  import opened CatalogObservations
  import opened CatalogTransactions

  // Outside document d the tables are the same, row for row.
  predicate SameOutsideDocument(t: Tables, u: Tables, d: nat) {
    && u.sources == t.sources
    && (forall e | e in t.documents && e != d :: e in u.documents && u.documents[e] == t.documents[e])
    && (forall v | v in t.versions && t.versions[v].documentId != d :: v in u.versions && u.versions[v] == t.versions[v])
    && (forall v | v in u.versions && u.versions[v].documentId != d :: v in t.versions && u.versions[v] == t.versions[v])
    && (forall v | v in t.versions && v in u.versions :: u.versions[v].documentId == t.versions[v].documentId)
    && (forall s | s in t.sections && s !in DocumentSections(t, d) :: s in u.sections && u.sections[s] == t.sections[s])
    && (forall s | s in u.sections && s !in DocumentSections(u, d) :: s in t.sections && u.sections[s] == t.sections[s])
  }

  // Among document d's sections, the current ones are those of version v.
  predicate CurrentIs(u: Tables, d: nat, v: nat) {
    forall s | s in u.sections && Joined(u, s) :: SectionDocument(u, s) == d ==>
      (CurrentSection(u, s) <==> SectionVersion(u, s) == v)
  }

  lemma OutsideSectionsAlike(t: Tables, u: Tables, d: nat, s: nat)
    requires SameOutsideDocument(t, u, d) && ReferencesResolve(t) && ReferencesResolve(u)
    requires s in t.sections && s !in DocumentSections(t, d)
    ensures s in u.sections && s !in DocumentSections(u, d)
    ensures SearchableSection(t, s) == SearchableSection(u, s)
    ensures SearchableSection(t, s) ==> IndexedText(t, s) == IndexedText(u, s)
  {
    var v := t.sections[s].versionId;
    assert t.versions[v].documentId != d;
    assert u.versions[v] == t.versions[v];
  }

  /*** An index that need not agree with a rebuild ***/

  // The index has a row too many, too few, or with another text.
  predicate Astray(t: Tables, s: nat) {
    (s in t.index) != (s in Projection(t)) || (s in t.index && t.index[s] != Projection(t)[s])
  }

  // The rebuilt index, except for rows that were astray before and have not been cleared.
  function Carried(t: Tables, rebuilt: map<nat, IndexRow>, cleared: set<nat>): map<nat, IndexRow> {
    map s | s in rebuilt.Keys + t.index.Keys && (if Astray(t, s) && s !in cleared then s in t.index else s in rebuilt) ::
      if Astray(t, s) && s !in cleared then t.index[s] else rebuilt[s]
  }

  lemma NothingAstray(t: Tables, rebuilt: map<nat, IndexRow>, cleared: set<nat>)
    requires IndexAgrees(t)
    ensures Carried(t, rebuilt, cleared) == rebuilt
  {
    hide Projection;
    assert forall s :: !Astray(t, s);
  }

  // No row changes if none would be rebuilt differently.
  lemma NothingCleared(t: Tables, u: Tables)
    requires Projection(u) == Projection(t)
    ensures Carried(t, Projection(u), {}) == t.index
  {
    hide Projection;
    var rebuilt := Projection(u);
    forall s
      ensures s in Carried(t, rebuilt, {}) <==> s in t.index
      ensures s in t.index ==> Carried(t, rebuilt, {})[s] == t.index[s]
    {
    }
  }

  // What a section's row is after d's rows were deleted and those of its version v inserted.
  predicate RowCarried(t: Tables, u: Tables, d: nat, v: nat, s: nat) {
    var kept, added, carried := t.index - DocumentSections(t, d), VersionProjection(u, v), Carried(t, Projection(u), DocumentSections(t, d));
    && (s in carried <==> s in kept || s in added)
    && (s in added ==> carried[s] == added[s])
    && (s in kept ==> carried[s] == kept[s])
  }

  predicate Clashes(t: Tables, u: Tables, d: nat, v: nat, s: nat) {
    s in t.index - DocumentSections(t, d) && s in VersionProjection(u, v)
  }

  // Among d's own sections, those of its current version v are searchable exactly if d is.
  lemma CurrentRowsOfDocument(u: Tables, d: nat, v: nat, s: nat)
    requires ReferencesResolve(u) && CurrentIs(u, d, v) && s in DocumentSections(u, d)
    ensures s in Projection(u) <==> s in VersionProjection(u, v)
    ensures s in Projection(u) ==> Projection(u)[s] == VersionProjection(u, v)[s]
  {
  }

  lemma OnlyOwnRows(u: Tables, d: nat, v: nat, s: nat)
    requires v in u.versions ==> u.versions[v].documentId == d
    requires s !in DocumentSections(u, d)
    ensures s !in VersionProjection(u, v)
  {
  }

  // A section outside d has the row it had.
  lemma RowOutside(t: Tables, u: Tables, d: nat, v: nat, s: nat)
    requires ReferencesResolve(t) && ReferencesResolve(u) && SameOutsideDocument(t, u, d)
    requires v in u.versions ==> u.versions[v].documentId == d
    requires s !in DocumentSections(t, d) && s !in DocumentSections(u, d)
    ensures RowCarried(t, u, d, v, s)
  {
    OnlyOwnRows(u, d, v, s);
    if s in t.sections {
      OutsideSectionsAlike(t, u, d, s);
    } else {
      assert s !in u.sections;
    }
  }

  // A section that d had and has no more has no row.
  lemma RowGone(t: Tables, u: Tables, d: nat, v: nat, s: nat)
    requires ReferencesResolve(t) && ReferencesResolve(u) && SameOutsideDocument(t, u, d)
    requires v in u.versions ==> u.versions[v].documentId == d
    requires s in DocumentSections(t, d) && s !in DocumentSections(u, d)
    ensures RowCarried(t, u, d, v, s)
  {
    OnlyOwnRows(u, d, v, s);
  }

  // A section that d has now has a row if it is one of its current version, or if a row was left over.
  lemma RowOfDocument(t: Tables, u: Tables, d: nat, v: nat, s: nat)
    requires ReferencesResolve(t) && ReferencesResolve(u) && SameOutsideDocument(t, u, d) && CurrentIs(u, d, v)
    requires s in DocumentSections(u, d) && !Clashes(t, u, d, v, s)
    ensures RowCarried(t, u, d, v, s)
  {
    CurrentRowsOfDocument(u, d, v, s);
    if s in t.sections && s !in DocumentSections(t, d) {
      OutsideSectionsAlike(t, u, d, s);
      assert false;
    }
  }

  // Deleting d's rows and inserting those of its current version v amounts to a rebuild, but for the
  // rows that were astray elsewhere; if no row id is inserted twice, which a row left over can cause.
  lemma RefreshIsRebuild(t: Tables, u: Tables, d: nat, v: nat)
    requires ReferencesResolve(t) && ReferencesResolve(u)
    requires SameOutsideDocument(t, u, d) && CurrentIs(u, d, v)
    requires v in u.versions ==> u.versions[v].documentId == d
    ensures var kept, added := t.index - DocumentSections(t, d), VersionProjection(u, v);
            && (kept.Keys !! added.Keys ==> kept + added == Carried(t, Projection(u), DocumentSections(t, d)))
            && (IndexAgrees(t) ==> kept.Keys !! added.Keys && kept + added == Projection(u))
  {
    hide ReferencesResolve, SameOutsideDocument, CurrentIs, Projection, VersionProjection, DocumentSections, Carried, Astray;
    var kept, added, carried := t.index - DocumentSections(t, d), VersionProjection(u, v), Carried(t, Projection(u), DocumentSections(t, d));
    if IndexAgrees(t) {
      NothingAstray(t, Projection(u), DocumentSections(t, d));
      forall s | s in kept
        ensures s !in added
      {
        NoClash(t, u, d, v, s);
      }
    }
    if kept.Keys !! added.Keys {
      forall s
        ensures s in carried <==> s in kept || s in added
        ensures s in added ==> s !in kept && carried[s] == added[s]
        ensures s in kept ==> carried[s] == kept[s]
      {
        if s in DocumentSections(u, d) {
          RowOfDocument(t, u, d, v, s);
        } else if s in DocumentSections(t, d) {
          RowGone(t, u, d, v, s);
        } else {
          RowOutside(t, u, d, v, s);
        }
      }
      DisjointUnion(carried, kept, added);
    }
  }

  // Only the row of a section that is gone can be in the way.
  lemma ClashIsLeftOver(t: Tables, u: Tables, d: nat, v: nat, s: nat)
    requires ReferencesResolve(t) && ReferencesResolve(u) && SameOutsideDocument(t, u, d)
    requires v in u.versions ==> u.versions[v].documentId == d
    requires Clashes(t, u, d, v, s)
    ensures s in t.index && s !in t.sections && Astray(t, s)
  {
    if s !in DocumentSections(u, d) {
      OnlyOwnRows(u, d, v, s);
    }
    if s in t.sections {
      OutsideSectionsAlike(t, u, d, s);
    }
  }

  lemma NoClash(t: Tables, u: Tables, d: nat, v: nat, s: nat)
    requires ReferencesResolve(t) && ReferencesResolve(u) && SameOutsideDocument(t, u, d) && IndexAgrees(t)
    requires v in u.versions ==> u.versions[v].documentId == d
    ensures !Clashes(t, u, d, v, s)
  {
    if Clashes(t, u, d, v, s) {
      ClashIsLeftOver(t, u, d, v, s);
    }
  }

  // A document without a current version keeps no rows.
  lemma RefreshOfUnpointedDocument(t: Tables, u: Tables, d: nat)
    requires ReferencesResolve(t) && ReferencesResolve(u)
    requires SameOutsideDocument(t, u, d) && DocumentSections(u, d) == DocumentSections(t, d)
    requires forall s | s in u.sections && Joined(u, s) :: SectionDocument(u, s) == d ==> !CurrentSection(u, s)
    ensures Carried(t, Projection(u), DocumentSections(t, d)) == t.index - DocumentSections(t, d)
  {
    hide ReferencesResolve, SameOutsideDocument, Projection, DocumentSections, Carried, Astray;
    var kept, carried := t.index - DocumentSections(t, d), Carried(t, Projection(u), DocumentSections(t, d));
    forall s
      ensures s in carried <==> s in kept
      ensures s in carried ==> carried[s] == kept[s]
    {
      UnpointedRow(t, u, d, s);
    }
  }

  lemma UnpointedRow(t: Tables, u: Tables, d: nat, s: nat)
    requires ReferencesResolve(t) && ReferencesResolve(u)
    requires SameOutsideDocument(t, u, d) && DocumentSections(u, d) == DocumentSections(t, d)
    requires forall s | s in u.sections && Joined(u, s) :: SectionDocument(u, s) == d ==> !CurrentSection(u, s)
    ensures var kept, carried := t.index - DocumentSections(t, d), Carried(t, Projection(u), DocumentSections(t, d));
            (s in carried <==> s in kept) && (s in carried ==> carried[s] == kept[s])
  {
    if s in t.sections && s !in DocumentSections(t, d) {
      OutsideSectionsAlike(t, u, d, s);
    }
  }

  /*** Facts about the table changes ***/

  // One row, `written`, was inserted or updated; the transaction goes on with `d`.
  predicate UpsertShape(t: Tables, w: DocumentWrite, d: nat) {
    && w.documents.Keys == t.documents.Keys + {w.written}
    && (forall e | e in t.documents && e != w.written :: w.documents[e] == t.documents[e])
    && w.documents[w.written].sourceId in t.sources
    && w.documents[w.written].currentVersion ==
         (if w.written in t.documents then t.documents[w.written].currentVersion else None)
    && d in w.documents
    && (w.written !in t.documents ==> d == w.written)
  }

  lemma UpdatedRowKeepsKeys(documents: map<nat, Document>, a: nat, input: DocumentInput, now: int)
    requires UniqueDocuments(documents) && a in documents && HasKey(documents[a], input.sourceId, input.stableKey)
    requires UrlConflicts(documents, input, {a}) == {}
    ensures UniqueDocuments(documents[a := UpdatedDocument(documents[a], input, now)])
  {
    forall b | b in documents && b != a
      ensures !(documents[b].sourceId == input.sourceId && documents[b].canonicalUrl == input.canonicalUrl)
    {
      assert b !in UrlConflicts(documents, input, {a});
    }
  }

  lemma NewRowKeepsKeys(documents: map<nat, Document>, d: nat, input: DocumentInput, now: int)
    requires UniqueDocuments(documents) && d !in documents
    requires DocumentsByKey(documents, input.sourceId, input.stableKey) == {}
    requires DocumentsByPublicId(documents, input.publicId) == {} && UrlConflicts(documents, input, {}) == {}
    ensures UniqueDocuments(documents[d := NewDocument(input, now)])
  {
    forall b | b in documents
      ensures documents[b].publicId != input.publicId
      ensures !HasKey(documents[b], input.sourceId, input.stableKey)
      ensures !(documents[b].sourceId == input.sourceId && documents[b].canonicalUrl == input.canonicalUrl)
    {
      assert b !in DocumentsByPublicId(documents, input.publicId);
      assert b !in DocumentsByKey(documents, input.sourceId, input.stableKey);
      assert b !in UrlConflicts(documents, input, {});
    }
  }

  lemma UpsertDocumentFacts(t: Tables, input: DocumentInput, now: int)
    requires ReferencesResolve(t) && UniqueDocuments(t.documents)
    ensures var r := UpsertDocumentRows(t, input, now);
            r.Ok? ==>
              && UpsertShape(t, r.value, ResolvedDocument(r.value, input))
              && UniqueDocuments(r.value.documents)
              && HasKey(r.value.documents[r.value.written], input.sourceId, input.stableKey)
  {
    var r := UpsertDocumentRows(t, input, now);
    if r.Ok? {
      var w := r.value;
      if DocumentsByKey(t.documents, input.sourceId, input.stableKey) != {} {
        assert w.written in DocumentsByKey(t.documents, input.sourceId, input.stableKey);
        UpdatedRowKeepsKeys(t.documents, w.written, input, now);
      } else {
        NewRowKeepsKeys(t.documents, w.written, input, now);
        assert w.written in DocumentsByPublicId(w.documents, input.publicId);
      }
    }
  }

  lemma UpsertVersionFacts(versions: map<nat, Version>, input: VersionInput, fetchedAt: int, pending: bool)
    requires UniqueVersions(versions)
    ensures var w := UpsertVersionRow(versions, input, fetchedAt, pending);
            && UniqueVersions(w.versions)
            && w.versions.Keys == versions.Keys + {w.written}
            && w.versions[w.written] == VersionRow(input, fetchedAt, pending)
            && (forall v | v in versions && v != w.written :: w.versions[v] == versions[v])
            && (w.written in versions ==>
                  versions[w.written].documentId == input.documentId && versions[w.written].contentHash == input.contentHash)
            && (w.written !in versions ==> VersionsByHash(versions, input.documentId, input.contentHash) == {})
  {
    var w := UpsertVersionRow(versions, input, fetchedAt, pending);
    var matches := VersionsByHash(versions, input.documentId, input.contentHash);
    if matches == {} {
      forall v | v in versions
        ensures !(versions[v].documentId == input.documentId && versions[v].contentHash == input.contentHash)
      {
        assert v !in matches;
      }
    } else {
      assert w.written in matches;
    }
  }

  lemma ClearedFacts(versions: map<nat, Version>, d: nat)
    requires UniqueVersions(versions)
    ensures UniqueVersions(ClearCurrentVersions(versions, d))
  {
  }

  lemma ReplacedSectionsFacts(sections: map<nat, Section>, v: nat, inputs: seq<SectionInput>)
    ensures var r := ReplacedSections(sections, v, inputs);
            r.Ok? ==>
              && SectionsReplaced(sections, r.value, v)
              && (inputs != [] ==> exists s :: s in r.value && r.value[s].versionId == v)
  {
    var r := ReplacedSections(sections, v, inputs);
    var kept := SectionsWithout(sections, v);
    var first := NextRowId(kept.Keys);
    var rows := NumberedSections(first, v, inputs);
    NumberedRows(first, v, inputs);
    assert forall s :: s in rows <==> first <= s < first + |inputs|;
    if r.Ok? {
      assert r.value == kept + rows;
      assert inputs != [] ==> first in r.value && r.value[first].versionId == v;
    }
  }

  /*** One lemma a transaction: its incremental index is the rebuilt one ***/

  predicate SameText(a: Document, b: Document) {
    a.sourceId == b.sourceId && a.language == b.language && a.title == b.title && a.status == b.status
  }

  lemma VersionProjectionAlike(x: Tables, y: Tables, v: nat, d: nat)
    requires x.sources == y.sources && x.versions == y.versions && x.sections == y.sections
    requires v in x.versions ==> x.versions[v].documentId == d
    requires d in x.documents && d in y.documents && SameText(x.documents[d], y.documents[d])
    ensures VersionProjection(x, v) == VersionProjection(y, v)
  {
  }

  // An observation reads and writes nothing of the index.
  lemma ObservationIgnoresIndex(before: Tables, x: Tables, index: map<nat, IndexRow>, owned: map<nat, OwnerToken>, d: nat,
                                observation: Option<Observation>, at: int)
    ensures var indexed := x.(index := index);
            var spec, done := Observe(before, x, owned, d, observation, at), Observe(indexed, indexed, owned, d, observation, at);
            && spec.error == done.error && spec.owned == done.owned
            && (spec.error.Some? ==> spec.tables == before)
            && (spec.error.None? ==> done.tables == spec.tables.(index := index))
  {
  }

  lemma ObservedRows(x: Tables, d: nat, observation: Observation, at: int)
    requires observation.runId in x.runs
    ensures var u := Observed(x, d, observation, at);
            u.sources == x.sources && u.documents == x.documents && u.sections == x.sections
  {
  }

  lemma ObservationKeepsRefresh(before: Tables, x: Tables, owned: map<nat, OwnerToken>, d: nat,
                                observation: Option<Observation>, at: int, documents: map<nat, Document>, written: nat)
    requires Observe(before, x, owned, d, observation, at).error.None?
    ensures Projection(AsRefreshed(Observe(before, x, owned, d, observation, at).tables, documents, written, d))
            == Projection(AsRefreshed(x, documents, written, d))
  {
    if observation.Some? {
      var after := Observed(x, d, observation.value, at);
      assert SameVersionShape(x.versions, after.versions);
      hide Projection, BaseConsistent, SameVersionShape, Observed;
      ObservedRows(x, d, observation.value, at);
      VersionShapeDecides(AsRefreshed(x, documents, written, d), AsRefreshed(after, documents, written, d));
    }
  }

  // The tables of the simple form, with the index the statements leave.
  function Left(t: Tables, out: Outcome, cleared: set<nat>): Tables {
    if out.error.Some? then out.tables else out.tables.(index := Carried(t, out.tables.index, cleared))
  }

  lemma ConsistentLeft(t: Tables, out: Outcome, cleared: set<nat>)
    requires IndexAgrees(t)
    ensures Left(t, out, cleared) == out.tables
  {
    NothingAstray(t, out.tables.index, cleared);
  }

  // An observation made over the index the statements leave.
  lemma RefreshAfterObservation(t: Tables, x: Tables, written: nat, owned: map<nat, OwnerToken>, d: nat,
                                observation: Option<Observation>, at: int, cleared: set<nat>)
    ensures var indexed := x.(index := Carried(t, RefreshedFor(x, t.documents, written, d).index, cleared));
            var spec, done := Observe(t, x, owned, d, observation, at), Observe(indexed, indexed, owned, d, observation, at);
            && spec.error == done.error && spec.owned == done.owned
            && (spec.error.Some? ==> spec.tables == t)
            && (spec.error.None? ==>
                  spec.tables.(index := Carried(t, RefreshedFor(spec.tables, t.documents, written, d).index, cleared)) == done.tables)
  {
    hide Carried, Observe, AsRefreshed;
    ObservationIgnoresIndex(t, x, Carried(t, RefreshedFor(x, t.documents, written, d).index, cleared), owned, d, observation, at);
    if Observe(t, x, owned, d, observation, at).error.None? {
      ObservationKeepsRefresh(t, x, owned, d, observation, at, t.documents, written);
    }
  }

  // The row written but not refreshed is put back: what remains changed is document d alone.
  lemma UpsertedOutside(t: Tables, w: DocumentWrite, d: nat)
    requires ReferencesResolve(t) && UpsertShape(t, w, d)
    ensures var u := AsRefreshed(t.(documents := w.documents), t.documents, w.written, d);
            && d in u.documents && u.documents[d] == w.documents[d]
            && (d in t.documents ==> w.documents[d].currentVersion == t.documents[d].currentVersion)
            && (d !in t.documents ==> w.documents[d].currentVersion.None?)
            && ReferencesResolve(u) && SameOutsideDocument(t, u, d)
  {
    UpsertedResolves(t, w, d);
    UpsertedRows(t, w, d);
    hide SameOutsideDocument, ReferencesResolve, UpsertShape, AsRefreshed;
    OnlyOneDocumentDiffers(t, AsRefreshed(t.(documents := w.documents), t.documents, w.written, d), d);
  }

  lemma UpsertedRows(t: Tables, w: DocumentWrite, d: nat)
    requires UpsertShape(t, w, d)
    ensures var u := AsRefreshed(t.(documents := w.documents), t.documents, w.written, d);
            && u == t.(documents := u.documents)
            && d in u.documents && u.documents[d] == w.documents[d]
            && (d in t.documents ==> w.documents[d].currentVersion == t.documents[d].currentVersion)
            && (d !in t.documents ==> w.documents[d].currentVersion.None?)
            && (forall e | e in t.documents && e != d :: e in u.documents && u.documents[e] == t.documents[e])
  {
  }

  lemma UpsertedResolves(t: Tables, w: DocumentWrite, d: nat)
    requires ReferencesResolve(t) && UpsertShape(t, w, d)
    ensures ReferencesResolve(AsRefreshed(t.(documents := w.documents), t.documents, w.written, d))
  {
  }

  lemma OnlyOneDocumentDiffers(t: Tables, u: Tables, d: nat)
    requires ReferencesResolve(t) && u == t.(documents := u.documents)
    requires forall e | e in t.documents && e != d :: e in u.documents && u.documents[e] == t.documents[e]
    ensures SameOutsideDocument(t, u, d)
  {
  }

  // The pointer kept by an upsert still names the document's one flagged version.
  lemma UpsertedCurrent(t: Tables, u: Tables, d: nat)
    requires ReferencesResolve(t) && PointersMatchFlags(t.documents, t.versions)
    requires u == t.(documents := u.documents) && d in u.documents
    requires u.documents[d].currentVersion == if d in t.documents then t.documents[d].currentVersion else None
    ensures u.documents[d].currentVersion.Some? ==>
              && CurrentIs(u, d, u.documents[d].currentVersion.value)
              && u.documents[d].currentVersion.value in u.versions
              && u.versions[u.documents[d].currentVersion.value].documentId == d
    ensures u.documents[d].currentVersion.None? ==>
              forall s | s in u.sections && Joined(u, s) :: SectionDocument(u, s) == d ==> !CurrentSection(u, s)
  {
  }

  lemma UpsertIndex(t: Tables, w: DocumentWrite, d: nat)
    requires ReferencesResolve(t) && PointersMatchFlags(t.documents, t.versions) && UpsertShape(t, w, d)
    ensures var x := t.(documents := w.documents);
            var kept := t.index - DocumentSections(t, d);
            var carried := Carried(t, RefreshedFor(x, t.documents, w.written, d).index, DocumentSections(t, d));
            && DocumentSections(x, d) == DocumentSections(t, d)
            && d in w.documents
            && (w.documents[d].currentVersion.None? ==> kept == carried)
            && (w.documents[d].currentVersion.Some? ==>
                  var added := VersionProjection(x, w.documents[d].currentVersion.value);
                  kept.Keys !! added.Keys && kept + added == carried)
  {
    UpsertedOutside(t, w, d);
    var x := t.(documents := w.documents);
    var u := AsRefreshed(x, t.documents, w.written, d);
    SameSectionsOfDocument(x, t, d);
    SameSectionsOfDocument(u, t, d);
    UpsertedCurrent(t, u, d);
    UpsertHasDocument(t, w, d);
    hide ReferencesResolve, PointersMatchFlags, SameOutsideDocument, IndexAgrees, DocumentSections, Projection, VersionProjection, CurrentIs,
         UpsertShape, Carried, AsRefreshed;
    if w.documents[d].currentVersion.Some? {
      var v := w.documents[d].currentVersion.value;
      OwnRowsAreCleared(t, u, d, v);
      RefreshIsRebuild(t, u, d, v);
      VersionProjectionAlike(x, u, v, d);
    } else {
      RefreshOfUnpointedDocument(t, u, d);
    }
  }

  lemma UpsertHasDocument(t: Tables, w: DocumentWrite, d: nat)
    requires UpsertShape(t, w, d)
    ensures var x := t.(documents := w.documents);
            var u := AsRefreshed(x, t.documents, w.written, d);
            && d in w.documents && d in u.documents && u.documents[d] == w.documents[d]
            && x.sources == u.sources && x.versions == u.versions && x.sections == u.sections
  {
  }

  // The rows of a version of d are among those deleted.
  lemma OwnRowsAreCleared(t: Tables, u: Tables, d: nat, v: nat)
    requires v in u.versions ==> u.versions[v].documentId == d
    requires DocumentSections(u, d) == DocumentSections(t, d)
    ensures (t.index - DocumentSections(t, d)).Keys !! VersionProjection(u, v).Keys
  {
    forall s | s in VersionProjection(u, v)
      ensures s in DocumentSections(t, d)
    {
      if s !in DocumentSections(u, d) {
        OnlyOwnRows(u, d, v, s);
      }
    }
  }

  // Version v of document d became the only flagged one.
  predicate FlagMoved(versions: map<nat, Version>, after: map<nat, Version>, d: nat, v: nat) {
    && after.Keys == versions.Keys + {v}
    && after[v].documentId == d && after[v].isCurrent && !after[v].pendingCurrent
    && (v in versions ==> versions[v].documentId == d)
    && (forall x | x in versions && x != v :: after[x] == ClearCurrentVersions(versions, d)[x])
  }

  predicate SectionsReplaced(sections: map<nat, Section>, after: map<nat, Section>, v: nat) {
    && (forall s | s in sections && sections[s].versionId != v :: s in after && after[s] == sections[s])
    && (forall s | s in after && after[s].versionId != v :: s in sections && after[s] == sections[s])
  }

  // Tables in which v, with its new sections, has become the current version of d.
  predicate Promoted(t: Tables, u: Tables, d: nat, v: nat) {
    && u.sources == t.sources
    && d in u.documents && u.documents.Keys == t.documents.Keys + {d}
    && u.documents[d].sourceId in t.sources && u.documents[d].currentVersion == Some(v)
    && (forall e | e in t.documents && e != d :: u.documents[e] == t.documents[e])
    && FlagMoved(t.versions, u.versions, d, v)
    && SectionsReplaced(t.sections, u.sections, v)
  }

  lemma PromotedResolves(t: Tables, u: Tables, d: nat, v: nat)
    requires ReferencesResolve(t) && Promoted(t, u, d, v)
    ensures ReferencesResolve(u) && CurrentIs(u, d, v)
  {
  }

  lemma PromotedOutside(t: Tables, u: Tables, d: nat, v: nat)
    requires ReferencesResolve(t) && Promoted(t, u, d, v)
    ensures SameOutsideDocument(t, u, d)
  {
    forall s | s in t.sections && s !in DocumentSections(t, d)
      ensures s in u.sections && u.sections[s] == t.sections[s]
    {
      assert t.sections[s].versionId != v;
    }
    forall s | s in u.sections && s !in DocumentSections(u, d)
      ensures s in t.sections && u.sections[s] == t.sections[s]
    {
      assert u.sections[s].versionId != v;
    }
  }

  lemma UpsertedThenPromoted(t: Tables, after: Tables, w: DocumentWrite, d: nat, v: nat, now: int)
    requires UpsertShape(t, w, d) && ReferencesResolve(t)
    requires after.documents == PointedTo(w.documents, d, v, now) && after.sources == t.sources
    requires FlagMoved(t.versions, after.versions, d, v) && SectionsReplaced(t.sections, after.sections, v)
    ensures var u := AsRefreshed(after, t.documents, w.written, d);
            Promoted(t, u, d, v) && SameText(u.documents[d], w.documents[d])
  {
  }

  lemma PromotionIndex(t: Tables, x: Tables, w: DocumentWrite, d: nat, v: nat, now: int)
    requires ReferencesResolve(t) && UpsertShape(t, w, d)
    requires x.documents == w.documents && x.sources == t.sources
    requires FlagMoved(t.versions, x.versions, d, v) && SectionsReplaced(t.sections, x.sections, v)
    ensures var rebuilt := RefreshedFor(x.(documents := PointedTo(w.documents, d, v, now)), t.documents, w.written, d).index;
            var kept, added := t.index - DocumentSections(t, d), VersionProjection(x, v);
            && (kept.Keys !! added.Keys ==> kept + added == Carried(t, rebuilt, DocumentSections(t, d)))
            && (IndexAgrees(t) ==> kept.Keys !! added.Keys)
  {
    var after := x.(documents := PointedTo(w.documents, d, v, now));
    var u := AsRefreshed(after, t.documents, w.written, d);
    UpsertedThenPromoted(t, after, w, d, v, now);
    PromotedResolves(t, u, d, v);
    PromotedOutside(t, u, d, v);
    PromotedVersion(t, u, d, v);
    hide ReferencesResolve, SameOutsideDocument, CurrentIs, Projection, DocumentSections, Carried, IndexAgrees, Promoted, FlagMoved,
         SectionsReplaced, UpsertShape;
    RefreshIsRebuild(t, u, d, v);
    VersionProjectionAlike(x, u, v, d);
  }

  lemma PromotedVersion(t: Tables, u: Tables, d: nat, v: nat)
    requires Promoted(t, u, d, v)
    ensures d in u.documents && v in u.versions && u.versions[v].documentId == d
  {
  }

  lemma CommittedVersionMovesFlag(versions: map<nat, Version>, input: VersionInput, d: nat, fetchedAt: int)
    requires UniqueVersions(versions)
    ensures var w := UpsertVersionRow(ClearCurrentVersions(versions, d), input.(documentId := d, isCurrent := true), fetchedAt, false);
            FlagMoved(versions, w.versions, d, w.written)
  {
    ClearedFacts(versions, d);
    UpsertVersionFacts(ClearCurrentVersions(versions, d), input.(documentId := d, isCurrent := true), fetchedAt, false);
  }

  lemma SameSectionsOfDocument(x: Tables, y: Tables, d: nat)
    requires x.versions == y.versions && x.sections == y.sections
    ensures DocumentSections(x, d) == DocumentSections(y, d)
  {
  }

  lemma SameVersionProjection(x: Tables, y: Tables, v: nat)
    requires SameCatalog(x, y)
    ensures VersionProjection(x, v) == VersionProjection(y, v)
  {
  }

  lemma RevisionIndex(t: Tables, w: DocumentWrite, d: nat, revision: RevisionInput, times: CommitTimes)
    requires ReferencesResolve(t) && UniqueVersions(t.versions) && UpsertShape(t, w, d)
    ensures var r := RevisionRows(t, w.documents, d, revision, times);
            r.Ok? ==>
              var v := RevisionVersion(t.versions, d, revision, times);
              var kept, added := t.index - DocumentSections(t, d), VersionProjection(r.value.(documents := w.documents), v);
              && (kept.Keys !! added.Keys ==>
                    kept + added == Carried(t, RefreshedFor(r.value, t.documents, w.written, d).index, DocumentSections(t, d)))
              && (IndexAgrees(t) ==> kept.Keys !! added.Keys)
  {
    hide ReferencesResolve, FlagMoved, SectionsReplaced, UpsertShape, DocumentSections, VersionProjection, Carried, IndexAgrees, RefreshedFor;
    var r := RevisionRows(t, w.documents, d, revision, times);
    if r.Ok? {
      var v := RevisionVersion(t.versions, d, revision, times);
      CommittedVersionMovesFlag(t.versions, revision.version, d, times.version);
      ReplacedSectionsFacts(t.sections, v, revision.sections);
      PromotionIndex(t, r.value.(documents := w.documents), w, d, v, times.pointer);
    }
  }

  // Inserting the revision's index rows meets a row id that is there already.
  ghost predicate Collides(t: Tables, w: DocumentWrite, d: nat, revision: RevisionInput, times: CommitTimes)
    requires RevisionRows(t, w.documents, d, revision, times).Ok?
  {
    var rows := RevisionRows(t, w.documents, d, revision, times).value;
    !((t.index - DocumentSections(t, d)).Keys
      !! VersionProjection(rows.(documents := w.documents), RevisionVersion(t.versions, d, revision, times)).Keys)
  }

  ghost predicate CommitCollides(t: Tables, revision: RevisionInput, times: CommitTimes) {
    && revision.sections != [] && UpsertDocumentRows(t, revision.document, times.document).Ok?
    && var w := UpsertDocumentRows(t, revision.document, times.document).value;
       var d := ResolvedDocument(w, revision.document);
       RevisionRows(t, w.documents, d, revision, times).Ok? && Collides(t, w, d, revision, times)
  }

  // The index rows that an upsert of the document clears.
  ghost function ClearedFor(t: Tables, input: DocumentInput, now: int): set<nat> {
    match UpsertDocumentRows(t, input, now)
    case Err(_) => {}
    case Ok(w) => DocumentSections(t, ResolvedDocument(w, input))
  }

  // A row left over in the index can keep a revision from being committed; while the index agrees
  // with a rebuild, none does.
  lemma ConsistentNeverCollides(t: Tables, revision: RevisionInput, times: CommitTimes)
    requires ReferencesResolve(t) && UniqueDocuments(t.documents) && UniqueVersions(t.versions) && IndexAgrees(t)
    ensures !CommitCollides(t, revision, times)
  {
    hide ReferencesResolve, UniqueDocuments, UniqueVersions, IndexAgrees, UpsertDocumentRows, ResolvedDocument, RevisionRows, RevisionVersion,
         DocumentSections, VersionProjection;
    UpsertDocumentFacts(t, revision.document, times.document);
    if UpsertDocumentRows(t, revision.document, times.document).Ok? {
      var w := UpsertDocumentRows(t, revision.document, times.document).value;
      RevisionIndex(t, w, ResolvedDocument(w, revision.document), revision, times);
    }
  }

  /*** Changes the index does not show ***/

  lemma TouchKeepsProjection(t: Tables, d: nat, now: int)
    requires d in t.documents
    ensures Projection(t.(documents := t.documents[d := t.documents[d].(lastSeenAt := now)])) == Projection(t)
  {
    var u := t.(documents := t.documents[d := t.documents[d].(lastSeenAt := now)]);
    assert forall s | s in t.sections :: SearchableSection(t, s) == SearchableSection(u, s);
  }

  lemma NewSourceIndexesNothing(t: Tables, id: nat, row: Source)
    requires ReferencesResolve(t) && id !in t.sources
    ensures Projection(t.(sources := t.sources[id := row])) == Projection(t)
  {
    var u := t.(sources := t.sources[id := row]);
    assert forall s | s in t.sections :: SearchableSection(u, s) == SearchableSection(t, s);
  }

  /*** Replacing the sections of one version ***/

  lemma UntouchedSection(t: Tables, u: Tables, v: nat, s: nat)
    requires u == t.(sections := u.sections) && SectionsReplaced(t.sections, u.sections, v)
    requires s in t.sections && t.sections[s].versionId != v
    ensures s in u.sections && SearchableSection(t, s) == SearchableSection(u, s)
    ensures SearchableSection(t, s) ==> IndexedText(t, s) == IndexedText(u, s)
  {
  }

  // Sections of a version that is not current have no rows, before or after.
  lemma ReplacingOldSections(t: Tables, u: Tables, v: nat)
    requires ReferencesResolve(t) && v in t.versions && !t.versions[v].isCurrent
    requires u == t.(sections := u.sections) && SectionsReplaced(t.sections, u.sections, v)
    ensures Projection(u) == Projection(t)
  {
    forall s
      ensures s in Projection(u) <==> s in Projection(t)
      ensures s in Projection(u) ==> Projection(u)[s] == Projection(t)[s]
    {
      if s in t.sections && t.sections[s].versionId != v {
        UntouchedSection(t, u, v, s);
      } else if s in u.sections && u.sections[s].versionId != v {
        UntouchedSection(t, u, v, s);
      }
    }
  }

  // One row id, before and after the sections of the current version were replaced.
  lemma ReplacedRow(t: Tables, u: Tables, v: nat, s: nat)
    requires ReferencesResolve(t) && PointersMatchFlags(t.documents, t.versions)
    requires v in t.versions && t.versions[v].isCurrent
    requires u == t.(sections := u.sections) && SectionsReplaced(t.sections, u.sections, v)
    ensures var cleared := DocumentSections(u, t.versions[v].documentId);
            var kept, added := t.index - cleared, VersionProjection(u, v);
            var carried := Carried(t, Projection(u) + StrandedRows(t, u), cleared);
            && !(s in kept && s in added)
            && (s in carried <==> s in kept || s in added)
            && (s in added ==> carried[s] == added[s])
            && (s in kept ==> carried[s] == kept[s])
  {
    if s in u.sections && u.sections[s].versionId != v {
      UntouchedSection(t, u, v, s);
    } else if s in t.sections && t.sections[s].versionId != v {
      UntouchedSection(t, u, v, s);
    }
  }

  // What the statements do when the version was current already: the new rows are right, but rows
  // of section ids that are gone stay behind, and so do rows astray elsewhere.
  lemma ReplacingCurrentSections(t: Tables, u: Tables, v: nat)
    requires ReferencesResolve(t) && PointersMatchFlags(t.documents, t.versions)
    requires v in t.versions && t.versions[v].isCurrent
    requires u == t.(sections := u.sections) && SectionsReplaced(t.sections, u.sections, v)
    ensures var cleared := DocumentSections(u, t.versions[v].documentId);
            && (t.index - cleared).Keys !! VersionProjection(u, v).Keys
            && (t.index - cleared) + VersionProjection(u, v) == Carried(t, Projection(u) + StrandedRows(t, u), cleared)
  {
    hide ReferencesResolve, PointersMatchFlags, SectionsReplaced, Projection, VersionProjection, DocumentSections, StrandedRows,
         Carried;
    var cleared := DocumentSections(u, t.versions[v].documentId);
    var kept, added := t.index - cleared, VersionProjection(u, v);
    var carried := Carried(t, Projection(u) + StrandedRows(t, u), cleared);
    forall s
      ensures !(s in kept && s in added)
      ensures s in carried <==> s in kept || s in added
      ensures s in added ==> carried[s] == added[s]
      ensures s in kept ==> carried[s] == kept[s]
    {
      ReplacedRow(t, u, v, s);
    }
    DisjointUnion(carried, kept, added);
  }

  lemma SameProjectionCarriesAlike(t: Tables, u: Tables, rebuilt: map<nat, IndexRow>, cleared: set<nat>)
    requires Projection(u) == Projection(t) && u.index == t.index
    ensures Carried(u, rebuilt, cleared) == Carried(t, rebuilt, cleared)
  {
    hide Projection;
  }

  // A pending version's sections have arrived: it becomes current.
  lemma PendingPromotion(t: Tables, sections: map<nat, Section>, v: nat, now: int)
    requires ReferencesResolve(t) && v in t.versions && !t.versions[v].isCurrent
    requires SectionsReplaced(t.sections, sections, v)
    ensures var d := t.versions[v].documentId;
            var replaced := t.(sections := sections);
            var flagged := replaced.(versions := PromotedVersions(t.versions, v));
            var done := flagged.(documents := PointedTo(t.documents, d, v, now));
            var kept, added := t.index - DocumentSections(replaced, d), VersionProjection(flagged, v);
            && kept.Keys !! added.Keys
            && kept + added == Carried(t, Projection(done), DocumentSections(replaced, d))
  {
    var d := t.versions[v].documentId;
    var replaced := t.(sections := sections);
    var flagged := replaced.(versions := PromotedVersions(t.versions, v));
    PendingShape(t, sections, v);
    ReplacingOldSections(t, replaced, v);
    hide ReferencesResolve, UpsertShape, FlagMoved, SectionsReplaced, Projection, VersionProjection, DocumentSections, Carried;
    PromotionIndex(replaced, flagged, DocumentWrite(t.documents, d), d, v, now);
    SameProjectionCarriesAlike(t, replaced, Projection(flagged.(documents := PointedTo(t.documents, d, v, now))), DocumentSections(replaced, d));
    OwnRowsAreCleared(replaced, flagged, d, v);
  }

  lemma PendingShape(t: Tables, sections: map<nat, Section>, v: nat)
    requires ReferencesResolve(t) && v in t.versions && SectionsReplaced(t.sections, sections, v)
    ensures var d := t.versions[v].documentId;
            var replaced := t.(sections := sections);
            var flagged := replaced.(versions := PromotedVersions(t.versions, v));
            && ReferencesResolve(replaced) && UpsertShape(replaced, DocumentWrite(t.documents, d), d)
            && FlagMoved(replaced.versions, flagged.versions, d, v) && SectionsReplaced(replaced.sections, flagged.sections, v)
            && v in flagged.versions && flagged.versions[v].documentId == d
            && DocumentSections(flagged, d) == DocumentSections(replaced, d)
  {
    hide SectionsReplaced, FlagMoved, DocumentSections, PromotedVersions;
    var d := t.versions[v].documentId;
    SectionsResolve(t, sections, v);
    FlagPromoted(t.versions, v);
    SameDocumentsOfVersions(t.(sections := sections), v, d);
    AllReplaced(sections, v);
  }

  lemma SectionsResolve(t: Tables, sections: map<nat, Section>, v: nat)
    requires ReferencesResolve(t) && v in t.versions && SectionsReplaced(t.sections, sections, v)
    ensures ReferencesResolve(t.(sections := sections))
  {
  }

  lemma FlagPromoted(versions: map<nat, Version>, v: nat)
    requires v in versions
    ensures var after := PromotedVersions(versions, v);
            && FlagMoved(versions, after, versions[v].documentId, v)
            && v in after && after[v].documentId == versions[v].documentId
  {
  }

  lemma SameDocumentsOfVersions(t: Tables, v: nat, d: nat)
    requires v in t.versions
    ensures DocumentSections(t.(versions := PromotedVersions(t.versions, v)), d) == DocumentSections(t, d)
  {
  }

  lemma AllReplaced(sections: map<nat, Section>, v: nat)
    ensures SectionsReplaced(sections, sections, v)
  {
  }

  // The index rows that replacing a version's sections clears.
  ghost function ClearedByReplacement(t: Tables, v: nat, inputs: seq<SectionInput>): set<nat> {
    if v !in t.versions || !(t.versions[v].pendingCurrent || t.versions[v].isCurrent) then {}
    else
      match ReplacedSections(t.sections, v, inputs)
      case Err(_) => {}
      case Ok(sections) => DocumentSections(t.(sections := sections), t.versions[v].documentId)
  }

  /*** Adding a version ***/

  lemma AddedVersionFacts(versions: map<nat, Version>, input: VersionInput, now: int)
    requires UniqueVersions(versions)
    ensures var w := AddedVersion(versions, input, now);
            && UniqueVersions(w.versions)
            && w.versions.Keys == versions.Keys + {w.written}
            && (forall v | v in versions && v != w.written :: w.versions[v] == versions[v])
            && w.versions[w.written].documentId == input.documentId
            && (w.versions[w.written].isCurrent ==> !w.versions[w.written].pendingCurrent)
            && (w.written in versions ==>
                  && versions[w.written].documentId == input.documentId
                  && w.versions[w.written].isCurrent == versions[w.written].isCurrent)
            && (w.written !in versions ==> !w.versions[w.written].isCurrent)
  {
    var matches := VersionsByHash(versions, input.documentId, input.contentHash);
    var keepsFlag := exists v :: v in matches && versions[v].isCurrent;
    UpsertVersionFacts(versions, input.(isCurrent := keepsFlag), now, input.isCurrent && !keepsFlag);
    var w := AddedVersion(versions, input, now);
    if w.written in versions {
      assert w.written in matches;
    }
  }

  lemma SameFlagSameProjection(t: Tables, u: Tables, w: nat)
    requires ReferencesResolve(t) && u == t.(versions := u.versions)
    requires u.versions.Keys == t.versions.Keys + {w}
    requires forall v | v in t.versions && v != w :: u.versions[v] == t.versions[v]
    requires w in t.versions ==>
               u.versions[w].documentId == t.versions[w].documentId && u.versions[w].isCurrent == t.versions[w].isCurrent
    ensures Projection(u) == Projection(t)
  {
    forall s | s in t.sections
      ensures SearchableSection(t, s) == SearchableSection(u, s)
      ensures SearchableSection(t, s) ==> IndexedText(t, s) == IndexedText(u, s)
    {
    }
  }
}
