// Exactly which transactions leave the index in agreement with a rebuild, and the catalog complete.
module CatalogAgreement {
  import opened Prelude
  import opened CatalogTables
  import opened CatalogInvariant
  import opened CatalogObservations
  import opened CatalogTransactions
  import opened CatalogIndexing
  import opened CatalogHistory
  import opened CatalogPurge

  /*** Documents named by one row's key and another row's public id ***/

  // Row a has the input's key, row b its public id.
  predicate Misaddressed(t: Tables, input: DocumentInput, a: nat, b: nat) {
    && a in t.documents && b in t.documents && a != b
    && HasKey(t.documents[a], input.sourceId, input.stableKey)
    && t.documents[b].publicId == input.publicId
  }

  // Some section of the document is current, and its source is enabled: active, it would be searchable.
  predicate CanBeShown(t: Tables, a: nat) {
    && a in t.documents && t.documents[a].sourceId in t.sources && t.sources[t.documents[a].sourceId].enabled
    && exists s :: s in t.sections && CurrentSection(t, s) && SectionDocument(t, s) == a
  }

  // The input changes what the index shows of the row.
  predicate ShowsDifferently(row: Document, input: DocumentInput) {
    || row.status.Active? != input.status.Active?
    || (input.status.Active? && (row.title != input.title || row.language != input.language))
  }

  // The row the input's key matches is not the one refreshed, and its indexed text changes.
  ghost predicate MissesARow(t: Tables, input: DocumentInput) {
    exists a, b :: Misaddressed(t, input, a, b) && CanBeShown(t, a) && ShowsDifferently(t.documents[a], input)
  }

  /*** Sections of the current version ***/

  // Some searchable section of v gets an id the new sections do not reuse.
  ghost predicate StrandsARow(t: Tables, v: nat, inputs: seq<SectionInput>) {
    && v in t.versions && t.versions[v].isCurrent
    && exists s :: s in t.sections && t.sections[s].versionId == v && SearchableSection(t, s)
                   && !(NextRowId(SectionsWithout(t.sections, v).Keys) <= s
                        < NextRowId(SectionsWithout(t.sections, v).Keys) + |inputs|)
  }

  // The branches in which the incremental statements fall short of a rebuild.
  ghost predicate FallsShort(t: Tables, op: Op) {
    match op
    case UpsertOp(document, _, _, _) => MissesARow(t, document)
    case CommitOp(revision, _, _) => MissesARow(t, revision.document)
    case ReplaceSectionsOp(v, sections, _) => StrandsARow(t, v, sections)
    case _ => false
  }

  /*** The index agrees exactly when the operation does not fall short ***/

  predicate SameDisplay(a: Document, b: Document) {
    && a.status.Active? == b.status.Active?
    && (a.status.Active? ==> a.title == b.title && a.language == b.language)
  }

  lemma ShownRowTells(u: Tables, row: Document, a: nat)
    requires CanBeShown(u, a)
    requires row.sourceId == u.documents[a].sourceId && row.currentVersion == u.documents[a].currentVersion
    requires Projection(u) == Projection(u.(documents := u.documents[a := row]))
    ensures SameDisplay(row, u.documents[a])
  {
    var x := u.(documents := u.documents[a := row]);
    var s :| s in u.sections && CurrentSection(u, s) && SectionDocument(u, s) == a;
    assert CurrentSection(x, s);
    assert s in Projection(u) <==> u.documents[a].status.Active?;
    assert s in Projection(x) <==> row.status.Active?;
    if s in Projection(u) {
      assert Projection(u)[s] == IndexedText(u, s) && Projection(x)[s] == IndexedText(x, s);
    }
  }

  // Putting another row back changes the projection only if that row can be shown and looks different.
  lemma RestoredRow(u: Tables, row: Document, a: nat)
    requires a in u.documents
    requires row.sourceId == u.documents[a].sourceId && row.currentVersion == u.documents[a].currentVersion
    ensures Projection(u) == Projection(u.(documents := u.documents[a := row])) <==>
              (CanBeShown(u, a) ==> SameDisplay(row, u.documents[a]))
  {
    var x := u.(documents := u.documents[a := row]);
    if CanBeShown(u, a) ==> SameDisplay(row, u.documents[a]) {
      forall s | s in u.sections
        ensures SearchableSection(u, s) == SearchableSection(x, s)
        ensures SearchableSection(u, s) ==> IndexedText(u, s) == IndexedText(x, s)
      {
        if CurrentSection(u, s) && SectionDocument(u, s) == a && u.sources[u.documents[a].sourceId].enabled {
          assert CanBeShown(u, a);
        }
      }
    } else {
      if Projection(u) == Projection(x) {
        ShownRowTells(u, row, a);
      }
    }
  }

  lemma Addressing(t: Tables, input: DocumentInput, now: int)
    requires ReferencesResolve(t) && UniqueDocuments(t.documents) && UpsertDocumentRows(t, input, now).Ok?
    ensures var w := UpsertDocumentRows(t, input, now).value;
            var d := ResolvedDocument(w, input);
            && UpsertShape(t, w, d)
            && (forall a, b :: Misaddressed(t, input, a, b) <==> a == w.written && b == d && w.written != d)
            && (w.written in t.documents ==> w.documents[w.written] == UpdatedDocument(t.documents[w.written], input, now))
            && (w.written !in t.documents ==> w.documents[w.written] == NewDocument(input, now))
  {
    UpsertDocumentFacts(t, input, now);
    var w := UpsertDocumentRows(t, input, now).value;
    var d := ResolvedDocument(w, input);
    var matches := DocumentsByKey(t.documents, input.sourceId, input.stableKey);
    var named := DocumentsByPublicId(w.documents, input.publicId);
    if matches != {} {
      assert w.written in matches;
      assert forall a, b :: Misaddressed(t, input, a, b) ==> a == w.written && b in named;
      assert named != {} ==> d in named;
    } else {
      assert forall a, b :: Misaddressed(t, input, a, b) ==> a in matches;
    }
  }

  // Another document's current sections are still there, and still current.
  lemma ShownAlike(t: Tables, u: Tables, d: nat, a: nat)
    requires ReferencesResolve(t) && ReferencesResolve(u) && SameOutsideDocument(t, u, d)
    requires a != d && a in t.documents && a in u.documents
    ensures CanBeShown(t, a) == CanBeShown(u, a)
  {
    hide ReferencesResolve, SameOutsideDocument;
    SameRowOutside(t, u, d, a);
    if CanBeShown(t, a) {
      var s :| s in t.sections && CurrentSection(t, s) && SectionDocument(t, s) == a;
      StillShown(t, u, d, a, s);
    }
    if CanBeShown(u, a) {
      var s :| s in u.sections && CurrentSection(u, s) && SectionDocument(u, s) == a;
      ShownBefore(t, u, d, a, s);
    }
  }

  lemma SameRowOutside(t: Tables, u: Tables, d: nat, a: nat)
    requires SameOutsideDocument(t, u, d) && a != d && a in t.documents && a in u.documents
    ensures u.documents[a] == t.documents[a] && u.sources == t.sources
  {
  }

  lemma StillShown(t: Tables, u: Tables, d: nat, a: nat, s: nat)
    requires ReferencesResolve(u) && SameOutsideDocument(t, u, d) && a != d && a in u.documents
    requires s in t.sections && CurrentSection(t, s) && SectionDocument(t, s) == a
    ensures s in u.sections && CurrentSection(u, s) && SectionDocument(u, s) == a
  {
    assert s !in DocumentSections(t, d);
    assert u.sections[s] == t.sections[s];
  }

  lemma ShownBefore(t: Tables, u: Tables, d: nat, a: nat, s: nat)
    requires ReferencesResolve(t) && SameOutsideDocument(t, u, d) && a != d && a in t.documents
    requires s in u.sections && CurrentSection(u, s) && SectionDocument(u, s) == a
    ensures s in t.sections && CurrentSection(t, s) && SectionDocument(t, s) == a
  {
    assert s !in DocumentSections(u, d);
    assert u.sections[s] == t.sections[s];
  }

  // Whether a document can be shown does not depend on its displayed columns.
  lemma ShownWhateverTheText(u: Tables, row: Document, a: nat)
    requires a in u.documents
    requires row.sourceId == u.documents[a].sourceId && row.currentVersion == u.documents[a].currentVersion
    ensures CanBeShown(u.(documents := u.documents[a := row]), a) == CanBeShown(u, a)
  {
    var x := u.(documents := u.documents[a := row]);
    forall s | s in u.sections
      ensures CurrentSection(x, s) == CurrentSection(u, s)
    {
    }
  }

  lemma ObservationKeepsShown(before: Tables, x: Tables, owned: map<nat, OwnerToken>, d: nat,
                              observation: Option<Observation>, at: int, a: nat)
    requires Observe(before, x, owned, d, observation, at).error.None?
    ensures var u := Observe(before, x, owned, d, observation, at).tables;
            u.documents == x.documents && CanBeShown(u, a) == CanBeShown(x, a)
  {
    var u := Observe(before, x, owned, d, observation, at).tables;
    assert SameVersionShape(x.versions, u.versions);
    forall s | s in x.sections
      ensures CurrentSection(x, s) == CurrentSection(u, s)
      ensures Joined(x, s) ==> SectionDocument(x, s) == SectionDocument(u, s)
    {
    }
  }

  // One row was written and another document refreshed: the index agrees exactly when the row
  // written cannot be shown or looks the same.
  lemma RefreshedExactly(t: Tables, x: Tables, input: DocumentInput, now: int, d: nat)
    requires ReferencesResolve(t) && UniqueDocuments(t.documents)
    requires UpsertDocumentRows(t, input, now).Ok? && d == ResolvedDocument(UpsertDocumentRows(t, input, now).value, input)
    requires var w := UpsertDocumentRows(t, input, now).value;
             w.written != d ==> && w.written in x.documents && x.documents[w.written] == w.documents[w.written]
                                && CanBeShown(x, w.written) == CanBeShown(t, w.written)
    ensures IndexAgrees(RefreshedFor(x, t.documents, UpsertDocumentRows(t, input, now).value.written, d))
            <==> !MissesARow(t, input)
  {
    var w := UpsertDocumentRows(t, input, now).value;
    var a := w.written;
    Addressing(t, input, now);
    hide ReferencesResolve, UniqueDocuments, CanBeShown, UpsertDocumentRows, ResolvedDocument;
    SameCatalogSameProjection(x, RefreshedFor(x, t.documents, a, d));
    if a == d {
      assert !MissesARow(t, input);
    } else {
      RestoredRow(x, t.documents[a], a);
      assert Misaddressed(t, input, a, d);
      assert MissesARow(t, input) <==> CanBeShown(t, a) && ShowsDifferently(t.documents[a], input);
    }
  }

  lemma RewrittenStaysShown(t: Tables, w: DocumentWrite, d: nat)
    requires UpsertShape(t, w, d) && w.written in t.documents && w.documents[w.written].sourceId == t.documents[w.written].sourceId
    ensures CanBeShown(t.(documents := w.documents), w.written) == CanBeShown(t, w.written)
  {
    ShownWhateverTheText(t, w.documents[w.written], w.written);
    assert t.documents[w.written := w.documents[w.written]] == w.documents;
  }

  lemma UpsertAgreesExactly(t: Tables, owned: map<nat, OwnerToken>, input: DocumentInput,
                            observation: Option<Observation>, now: int, observedAt: int)
    requires BaseConsistent(t)
    ensures var out := UpsertDocument(t, owned, input, observation, now, observedAt);
            if out.error.Some? then out.tables == t else IndexAgrees(out.tables) <==> !MissesARow(t, input)
  {
    hide ReferencesResolve, UniqueDocuments, UpsertDocumentRows, ResolvedDocument, Observe, CanBeShown, MissesARow, RefreshedFor;
    var rows := UpsertDocumentRows(t, input, now);
    if rows.Ok? {
      var w := rows.value;
      var d := ResolvedDocument(w, input);
      var x := t.(documents := w.documents);
      UpsertDocumentFacts(t, input, now);
      Addressing(t, input, now);
      var observed := Observe(t, x, owned, d, observation, observedAt);
      FailedObservation(t, x, owned, d, observation, observedAt);
      if observed.error.None? {
        ObservationKeepsShown(t, x, owned, d, observation, observedAt, w.written);
        if w.written != d {
          RewrittenStaysShown(t, w, d);
        }
        RefreshedExactly(t, observed.tables, input, now, d);
      }
    }
  }

  lemma RevisionKeepsShown(t: Tables, w: DocumentWrite, d: nat, revision: RevisionInput, times: CommitTimes)
    requires BaseConsistent(t) && UpsertShape(t, w, d) && w.written != d
    requires RevisionRows(t, w.documents, d, revision, times).Ok?
    requires w.documents[w.written].sourceId == t.documents[w.written].sourceId
    ensures var x := RevisionRows(t, w.documents, d, revision, times).value;
            && w.written in x.documents && x.documents[w.written] == w.documents[w.written]
            && CanBeShown(x, w.written) == CanBeShown(t, w.written)
  {
    hide BaseConsistent, ReferencesResolve, UniqueVersions, FlagMoved, SectionsReplaced, SameOutsideDocument, Promoted, CanBeShown;
    BaseParts(t);
    var x := RevisionRows(t, w.documents, d, revision, times).value;
    var v := RevisionVersion(t.versions, d, revision, times);
    CommittedVersionMovesFlag(t.versions, revision.version, d, times.version);
    ReplacedSectionsFacts(t.sections, v, revision.sections);
    UpsertedThenPromoted(t, x, w, d, v, times.pointer);
    var u := AsRefreshed(x, t.documents, w.written, d);
    PromotedOutside(t, u, d, v);
    PromotedResolves(t, u, d, v);
    ShownAlike(t, u, d, w.written);
    ShownWhateverTheText(x, t.documents[w.written], w.written);
  }

  lemma CommitAgreesExactly(t: Tables, owned: map<nat, OwnerToken>, revision: RevisionInput,
                            observation: Option<Observation>, times: CommitTimes)
    requires BaseConsistent(t)
    ensures var out := Commit(t, owned, revision, observation, times);
            if out.error.Some? then out.tables == t else IndexAgrees(out.tables) <==> !MissesARow(t, revision.document)
  {
    hide ReferencesResolve, UniqueDocuments, UpsertDocumentRows, ResolvedDocument, Observe, RevisionRows,
         CanBeShown, MissesARow, RefreshedFor;
    var input := revision.document;
    var rows := UpsertDocumentRows(t, input, times.document);
    if revision.sections != [] && rows.Ok? {
      var w := rows.value;
      var d := ResolvedDocument(w, input);
      UpsertDocumentFacts(t, input, times.document);
      Addressing(t, input, times.document);
      var r := RevisionRows(t, w.documents, d, revision, times);
      if r.Ok? {
        var observed := Observe(t, r.value, owned, d, observation, times.pointer);
        FailedObservation(t, r.value, owned, d, observation, times.pointer);
        if observed.error.None? && DocumentsByPublicId(r.value.documents, input.publicId) != {} {
          ObservationKeepsShown(t, r.value, owned, d, observation, times.pointer, w.written);
          if w.written != d {
            RevisionKeepsShown(t, w, d, revision, times);
          }
          RefreshedExactly(t, observed.tables, input, times.document, d);
        }
      }
    }
  }

  // The rows left behind are those of searchable sections whose id is not used again.
  lemma StrandedExactly(t: Tables, v: nat, inputs: seq<SectionInput>)
    requires ReferencesResolve(t) && IndexAgrees(t) && v in t.versions && t.versions[v].isCurrent
    requires ReplacedSections(t.sections, v, inputs).Ok?
    ensures var replaced := t.(sections := ReplacedSections(t.sections, v, inputs).value);
            && StrandedRows(t, replaced).Keys !! Projection(replaced).Keys
            && (StrandedRows(t, replaced) == map[] <==> !StrandsARow(t, v, inputs))
  {
    var replaced := t.(sections := ReplacedSections(t.sections, v, inputs).value);
    var stranded := StrandedRows(t, replaced);
    var first := NextRowId(SectionsWithout(t.sections, v).Keys);
    NumberedRows(first, v, inputs);
    forall s | s in t.sections
      ensures s in stranded <==>
                t.sections[s].versionId == v && SearchableSection(t, s) && !(first <= s < first + |inputs|)
    {
    }
    assert forall s :: s in stranded ==> s in t.sections;
    if StrandsARow(t, v, inputs) {
      var s :| s in t.sections && t.sections[s].versionId == v && SearchableSection(t, s) && !(first <= s < first + |inputs|);
      assert s in stranded;
    } else {
      assert stranded.Keys == {};
    }
  }

  // Rows beyond the projection spoil the agreement.
  lemma ExtraRows(u: Tables, extra: map<nat, IndexRow>)
    requires extra.Keys !! Projection(u).Keys
    ensures IndexAgrees(u.(index := Projection(u) + extra)) <==> extra == map[]
  {
    SameCatalogSameProjection(u, u.(index := Projection(u) + extra));
    hide Projection;
    if extra != map[] {
      assert extra.Keys != {};
      var s :| s in extra.Keys;
      assert s in Projection(u) + extra;
    }
  }

  lemma ReplaceSectionsAgreesExactly(t: Tables, owned: map<nat, OwnerToken>, v: nat, inputs: seq<SectionInput>, now: int)
    requires CatalogConsistent(t)
    ensures var out := ReplaceSections(t, owned, v, inputs, now);
            IndexAgrees(out.tables) <==> (out.error.Some? || !StrandsARow(t, v, inputs))
  {
    var out := ReplaceSections(t, owned, v, inputs, now);
    hide IndexAgrees, Projection, ReplacedSections, StrandedRows, StrandsARow, ReferencesResolve, UniqueDocuments;
    if out.error.None? {
      var replaced := t.(sections := ReplacedSections(t.sections, v, inputs).value);
      if t.versions[v].pendingCurrent {
        NotCurrentNotStranded(t, v, inputs);
        ReindexedAgrees(replaced.(versions := PromotedVersions(t.versions, v),
                                  documents := PointedTo(t.documents, t.versions[v].documentId, v, now)));
      } else if t.versions[v].isCurrent {
        StrandedExactly(t, v, inputs);
        ExtraRows(replaced, StrandedRows(t, replaced));
      } else {
        NotCurrentNotStranded(t, v, inputs);
        ReindexedAgrees(replaced);
      }
    }
  }

  lemma NotCurrentNotStranded(t: Tables, v: nat, inputs: seq<SectionInput>)
    requires v in t.versions ==> !t.versions[v].isCurrent
    ensures !StrandsARow(t, v, inputs)
  {
  }

  lemma ReindexedAgrees(t: Tables)
    ensures IndexAgrees(Reindexed(t))
  {
    SameCatalogSameProjection(t, Reindexed(t));
  }

  lemma TouchAgrees(t: Tables, owned: map<nat, OwnerToken>, d: nat, observation: Option<Observation>, now: int)
    requires IndexAgrees(t)
    ensures IndexAgrees(TouchDocument(t, owned, d, observation, now).tables)
  {
    if d in t.documents {
      var touched := t.(documents := t.documents[d := t.documents[d].(lastSeenAt := now)]);
      FailedObservation(t, touched, owned, d, observation, now);
      ReindexedAgrees(Observe(t, touched, owned, d, observation, now).tables);
    }
  }

  lemma RecordAgrees(t: Tables, owned: map<nat, OwnerToken>, d: nat, observation: Observation, now: int)
    requires IndexAgrees(t)
    ensures IndexAgrees(RecordObservation(t, owned, d, observation, now).tables)
  {
    FailedObservation(t, t, owned, d, Some(observation), now);
    ReindexedAgrees(Observe(t, t, owned, d, Some(observation), now).tables);
  }

  // Over every operation and input: the index agrees with a rebuild afterwards if and only if the
  // operation failed or its branch is not one of those that fall short.
  lemma StepAgreesExactly(t: Tables, owned: map<nat, OwnerToken>, op: Op)
    requires CatalogConsistent(t)
    ensures IndexAgrees(Apply(t, owned, op).tables) <==> (Apply(t, owned, op).error.Some? || !FallsShort(t, op))
  {
    hide BaseConsistent, IndexAgrees, UpsertDocument, Commit, TouchDocument, RecordObservation, ReplaceSections, MissesARow, StrandsARow, Reindexed;
    match op
    case UpsertOp(document, observation, now, observedAt) => UpsertAgreesExactly(t, owned, document, observation, now, observedAt);
    case CommitOp(revision, observation, times) => CommitAgreesExactly(t, owned, revision, observation, times);
    case ReplaceSectionsOp(v, sections, now) => ReplaceSectionsAgreesExactly(t, owned, v, sections, now);
    case TouchOp(d, observation, now) => TouchAgrees(t, owned, d, observation, now);
    case RecordOp(d, o, now) => RecordAgrees(t, owned, d, o, now);
    case StartOp(_, _, _, _, _) => RunsKeepAgreement(t, Apply(t, owned, op).tables.runs);
    case CompleteOp(_, _) => RunsKeepAgreement(t, Apply(t, owned, op).tables.runs);
    case RecoverOp(_, _) => RunsKeepAgreement(t, Apply(t, owned, op).tables.runs);
    case AddSourceOp(source, now) => AddSourceAgrees(t, owned, source, now);
    case UpdateSourceOp(source, now) => UpdateSourceAgrees(t, owned, source, now);
    case AddVersionOp(version, now) =>
      ReindexedAgrees(t.(versions := AddedVersion(t.versions, version, now).versions));
    case PurgeOp(scope, keep) => PurgeAgrees(t, scope, keep);
    case RebuildOp => ReindexedAgrees(t);
  }

  lemma RunsKeepAgreement(t: Tables, runs: map<nat, SyncRun>)
    requires IndexAgrees(t)
    ensures IndexAgrees(t.(runs := runs))
  {
    SameCatalogSameProjection(t, t.(runs := runs));
  }

  lemma AddSourceAgrees(t: Tables, owned: map<nat, OwnerToken>, source: SourceInput, now: int)
    requires IndexAgrees(t)
    ensures IndexAgrees(AddSource(t, owned, source, now).tables)
  {
    hide Projection;
    ReindexedAgrees(t.(sources := AddSource(t, owned, source, now).tables.sources));
  }

  lemma UpdateSourceAgrees(t: Tables, owned: map<nat, OwnerToken>, source: SourceInput, now: int)
    requires IndexAgrees(t)
    ensures IndexAgrees(UpdateSource(t, owned, source, now).tables)
  {
    hide Projection;
    ReindexedAgrees(t.(sources := UpdateSource(t, owned, source, now).tables.sources));
  }

  lemma PurgeAgrees(t: Tables, scope: Option<string>, keep: nat)
    ensures IndexAgrees(Purge(t, scope, keep))
  {
    var c := PurgeCandidates(t, scope, keep);
    ReindexedAgrees(t.(versions := t.versions - c, sections := t.sections - SectionsOfVersions(t.sections, c)));
  }
}
