// Catalogs whose index does not agree with a rebuild: what each operation leaves of the rows astray.
module CatalogRepair {
  import opened Prelude
  import opened CatalogTables
  import opened CatalogInvariant
  import opened CatalogObservations
  import opened CatalogTransactions
  import opened CatalogIndexing
  import opened CatalogPurge
  import opened CatalogHistory
  import opened CatalogAgreement
  import opened CatalogEffects
  import opened CatalogIntegrity
  import opened CatalogRuns
  import opened SyncLeases

  // The sections whose index rows the operation deletes.
  ghost function Cleared(t: Tables, op: Op): set<nat> {
    match op
    case UpsertOp(document, _, now, _) => ClearedFor(t, document, now)
    case CommitOp(revision, _, times) => ClearedFor(t, revision.document, times.document)
    case ReplaceSectionsOp(v, sections, _) => ClearedByReplacement(t, v, sections)
    case PurgeOp(scope, keep) => SectionsOfVersions(t.sections, PurgeCandidates(t, scope, keep))
    case UpdateSourceOp(_, _) => t.index.Keys + Projection(t).Keys
    case RebuildOp => t.index.Keys + Projection(t).Keys
    case _ => {}
  }

  // What the statements do over any index: a commit can meet a row left over.
  ghost function Execute(t: Tables, owned: map<nat, OwnerToken>, op: Op): Outcome {
    if op.CommitOp? && CommitCollides(t, op.revision, op.times) then RolledBack(t, owned, ConstraintViolation)
    else
      var out := Apply(t, owned, op);
      Outcome(Left(t, out, Cleared(t, op)), out.owned, out.error)
  }

  lemma CollisionRefuses(t: Tables, owned: map<nat, OwnerToken>, op: Op)
    requires op.CommitOp? && CommitCollides(t, op.revision, op.times)
    ensures Execute(t, owned, op) == RolledBack(t, owned, ConstraintViolation)
  {
  }

  // Over an index that agrees, this is the simple form.
  lemma ConsistentExecutes(t: Tables, owned: map<nat, OwnerToken>, op: Op)
    requires CatalogConsistent(t)
    ensures Execute(t, owned, op) == Apply(t, owned, op)
  {
    hide Apply, Left, Cleared, IndexAgrees;
    BaseParts(t);
    if op.CommitOp? {
      ConsistentNeverCollides(t, op.revision, op.times);
    }
    ConsistentLeft(t, Apply(t, owned, op), Cleared(t, op));
  }

  // The base tables stay consistent over any index.
  lemma ExecuteKeepsBase(t: Tables, owned: map<nat, OwnerToken>, op: Op)
    requires BaseConsistent(t)
    ensures BaseConsistent(Execute(t, owned, op).tables)
  {
    hide BaseConsistent, Apply, Cleared;
    StepKeepsBase(t, owned, op);
    var out := Apply(t, owned, op);
    IndexIsNotBase(out.tables, Left(t, out, Cleared(t, op)).index);
  }

  /*** Rows astray ***/

  predicate RebuiltAlike(t: Tables, rebuilt: map<nat, IndexRow>, s: nat) {
    (s in rebuilt <==> s in Projection(t)) && (s in rebuilt ==> rebuilt[s] == Projection(t)[s])
  }

  // The rows astray are those that were and have not been cleared.
  ghost predicate AstrayUncleared(t: Tables, u: Tables, cleared: set<nat>) {
    forall s :: Astray(u, s) <==> Astray(t, s) && s !in cleared
  }

  lemma AstrayAfter(t: Tables, w: Tables, rebuilt: map<nat, IndexRow>, cleared: set<nat>)
    requires w.index == Carried(t, rebuilt, cleared) && Projection(w) == rebuilt
    requires forall s :: Astray(t, s) && s !in cleared ==> RebuiltAlike(t, rebuilt, s)
    ensures AstrayUncleared(t, w, cleared)
  {
    hide Projection;
    forall s
      ensures Astray(w, s) <==> Astray(t, s) && s !in cleared
    {
      assert Astray(t, s) && s !in cleared ==> RebuiltAlike(t, rebuilt, s);
    }
  }

  // The tables left, read as the index reads them.
  lemma LeftProjection(t: Tables, out: Outcome, cleared: set<nat>)
    requires out.error.None?
    ensures Projection(Left(t, out, cleared)) == Projection(out.tables)
    ensures Left(t, out, cleared).index == Carried(t, out.tables.index, cleared)
  {
    SameCatalogSameProjection(Left(t, out, cleared), out.tables);
  }

  lemma RefreshedElsewhere(t: Tables, u: Tables, d: nat, v: nat, s: nat)
    requires ReferencesResolve(t) && ReferencesResolve(u) && SameOutsideDocument(t, u, d) && CurrentIs(u, d, v)
    requires v in u.versions ==> u.versions[v].documentId == d
    requires s !in DocumentSections(t, d) && Astray(t, s) && !Clashes(t, u, d, v, s)
    ensures RebuiltAlike(t, Projection(u), s)
  {
    if s in t.sections {
      OutsideSectionsAlike(t, u, d, s);
    } else if s in DocumentSections(u, d) {
      CurrentRowsOfDocument(u, d, v, s);
    }
  }

  lemma UpsertedElsewhere(t: Tables, w: DocumentWrite, d: nat, s: nat)
    requires ReferencesResolve(t) && UpsertShape(t, w, d) && s !in DocumentSections(t, d)
    ensures RebuiltAlike(t, RefreshedFor(t.(documents := w.documents), t.documents, w.written, d).index, s)
  {
    UpsertedOutside(t, w, d);
    UpsertHasDocument(t, w, d);
    var u := AsRefreshed(t.(documents := w.documents), t.documents, w.written, d);
    hide UpsertShape, AsRefreshed;
    if s in t.sections {
      OutsideSectionsAlike(t, u, d, s);
    }
  }

  lemma UpsertRepairs(t: Tables, owned: map<nat, OwnerToken>, input: DocumentInput, observation: Option<Observation>,
                      now: int, observedAt: int)
    requires BaseConsistent(t) && !MissesARow(t, input)
    ensures var out := UpsertDocument(t, owned, input, observation, now, observedAt);
            out.error.None? ==> AstrayUncleared(t, Left(t, out, ClearedFor(t, input, now)), ClearedFor(t, input, now))
  {
    hide BaseConsistent, ReferencesResolve, UniqueDocuments, MissesARow, UpsertDocumentRows, ResolvedDocument, Observe, RefreshedFor,
         IndexAgrees, Projection, DocumentSections, Carried, Astray, RebuiltAlike, UpsertShape, Left, AstrayUncleared;
    BaseParts(t);
    UpsertAgreesExactly(t, owned, input, observation, now, observedAt);
    UpsertDocumentFacts(t, input, now);
    var out := UpsertDocument(t, owned, input, observation, now, observedAt);
    if out.error.None? {
      var w := UpsertDocumentRows(t, input, now).value;
      var d := ResolvedDocument(w, input);
      var x := t.(documents := w.documents);
      ObservationKeepsRefresh(t, x, owned, d, observation, observedAt, t.documents, w.written);
      RefreshedIndex(x, Observe(t, x, owned, d, observation, observedAt).tables, t.documents, w.written, d);
      AgreeingIndex(out.tables);
      LeftProjection(t, out, DocumentSections(t, d));
      forall s | Astray(t, s) && s !in DocumentSections(t, d)
        ensures RebuiltAlike(t, out.tables.index, s)
      {
        UpsertedElsewhere(t, w, d, s);
      }
      AstrayAfter(t, Left(t, out, DocumentSections(t, d)), out.tables.index, DocumentSections(t, d));
    }
  }

  lemma AgreeingIndex(u: Tables)
    ensures IndexAgrees(u) ==> Projection(u) == u.index
  {
  }

  lemma RefreshedIndex(x: Tables, y: Tables, documents: map<nat, Document>, written: nat, d: nat)
    requires Projection(AsRefreshed(y, documents, written, d)) == Projection(AsRefreshed(x, documents, written, d))
    ensures RefreshedFor(y, documents, written, d).index == RefreshedFor(x, documents, written, d).index
  {
  }

  lemma CommittedElsewhere(t: Tables, w: DocumentWrite, d: nat, revision: RevisionInput, times: CommitTimes, s: nat)
    requires ReferencesResolve(t) && UniqueVersions(t.versions) && UpsertShape(t, w, d)
    requires RevisionRows(t, w.documents, d, revision, times).Ok? && !Collides(t, w, d, revision, times)
    requires s !in DocumentSections(t, d) && Astray(t, s)
    ensures RebuiltAlike(t, RefreshedFor(RevisionRows(t, w.documents, d, revision, times).value, t.documents, w.written, d).index, s)
  {
    hide ReferencesResolve, UniqueVersions, UpsertShape, FlagMoved, SectionsReplaced, SameOutsideDocument, CurrentIs, DocumentSections,
         VersionProjection, Projection, Astray, RebuiltAlike, Promoted, RevisionRows, RevisionVersion;
    var committed := RevisionRows(t, w.documents, d, revision, times).value;
    var v := RevisionVersion(t.versions, d, revision, times);
    var u := AsRefreshed(committed, t.documents, w.written, d);
    CommittedRows(t, w, d, revision, times);
    PromotedResolves(t, u, d, v);
    PromotedOutside(t, u, d, v);
    PromotedVersion(t, u, d, v);
    VersionProjectionAlike(committed.(documents := w.documents), u, v, d);
    RefreshedElsewhere(t, u, d, v, s);
  }

  lemma CommittedRows(t: Tables, w: DocumentWrite, d: nat, revision: RevisionInput, times: CommitTimes)
    requires ReferencesResolve(t) && UniqueVersions(t.versions) && UpsertShape(t, w, d)
    requires RevisionRows(t, w.documents, d, revision, times).Ok?
    ensures var committed := RevisionRows(t, w.documents, d, revision, times).value;
            var v := RevisionVersion(t.versions, d, revision, times);
            var u := AsRefreshed(committed, t.documents, w.written, d);
            && Promoted(t, u, d, v) && d in u.documents && d in w.documents && SameText(u.documents[d], w.documents[d])
            && committed.sources == u.sources && committed.versions == u.versions && committed.sections == u.sections
            && v in committed.versions && committed.versions[v].documentId == d
  {
    hide ReferencesResolve, UniqueVersions;
    var committed := RevisionRows(t, w.documents, d, revision, times).value;
    var v := RevisionVersion(t.versions, d, revision, times);
    CommittedVersionMovesFlag(t.versions, revision.version, d, times.version);
    ReplacedSectionsFacts(t.sections, v, revision.sections);
    UpsertedThenPromoted(t, committed, w, d, v, times.pointer);
  }

  lemma CommitRepairs(t: Tables, owned: map<nat, OwnerToken>, revision: RevisionInput, observation: Option<Observation>, times: CommitTimes)
    requires BaseConsistent(t) && !MissesARow(t, revision.document) && !CommitCollides(t, revision, times)
    ensures var out, cleared := Commit(t, owned, revision, observation, times), ClearedFor(t, revision.document, times.document);
            out.error.None? ==> AstrayUncleared(t, Left(t, out, cleared), cleared)
  {
    hide BaseConsistent, ReferencesResolve, UniqueDocuments, UniqueVersions, MissesARow, UpsertDocumentRows, ResolvedDocument, Observe,
         RefreshedFor, IndexAgrees, Projection, DocumentSections, Carried, Astray, RebuiltAlike, UpsertShape, Left, AstrayUncleared,
         RevisionRows, Collides, DocumentsByPublicId;
    BaseParts(t);
    CommitAgreesExactly(t, owned, revision, observation, times);
    UpsertDocumentFacts(t, revision.document, times.document);
    var out := Commit(t, owned, revision, observation, times);
    if out.error.None? {
      var w := UpsertDocumentRows(t, revision.document, times.document).value;
      var d := ResolvedDocument(w, revision.document);
      var x := RevisionRows(t, w.documents, d, revision, times).value;
      ObservationKeepsRefresh(t, x, owned, d, observation, times.pointer, t.documents, w.written);
      RefreshedIndex(x, Observe(t, x, owned, d, observation, times.pointer).tables, t.documents, w.written, d);
      AgreeingIndex(out.tables);
      LeftProjection(t, out, DocumentSections(t, d));
      forall s | Astray(t, s) && s !in DocumentSections(t, d)
        ensures RebuiltAlike(t, out.tables.index, s)
      {
        CommittedElsewhere(t, w, d, revision, times, s);
      }
      AstrayAfter(t, Left(t, out, DocumentSections(t, d)), out.tables.index, DocumentSections(t, d));
    }
  }

  /*** Replacing sections ***/

  // One row id when the sections of the current version are replaced and none is stranded.
  lemma ReplacedElsewhere(t: Tables, u: Tables, v: nat, inputs: seq<SectionInput>, s: nat)
    requires ReferencesResolve(t) && v in t.versions && t.versions[v].isCurrent && !StrandsARow(t, v, inputs)
    requires ReplacedSections(t.sections, v, inputs).Ok? && u == t.(sections := ReplacedSections(t.sections, v, inputs).value)
    requires SectionsReplaced(t.sections, u.sections, v)
    ensures var cleared := DocumentSections(u, t.versions[v].documentId);
            var rebuilt := Projection(u) + StrandedRows(t, u);
            && (s in t.sections && s !in u.sections ==> s !in Projection(t))
            && (s !in cleared ==> RebuiltAlike(t, Projection(u), s))
  {
    if s in t.sections && s !in u.sections {
      GoneIsNotSearchable(t, u, v, inputs, s);
    }
    if s in u.sections && u.sections[s].versionId != v {
      UntouchedSection(t, u, v, s);
    } else if s in t.sections && t.sections[s].versionId != v {
      UntouchedSection(t, u, v, s);
    }
  }

  lemma GoneIsNotSearchable(t: Tables, u: Tables, v: nat, inputs: seq<SectionInput>, s: nat)
    requires v in t.versions && t.versions[v].isCurrent && !StrandsARow(t, v, inputs)
    requires ReplacedSections(t.sections, v, inputs).Ok? && u == t.(sections := ReplacedSections(t.sections, v, inputs).value)
    requires s in t.sections && s !in u.sections
    ensures !SearchableSection(t, s)
  {
    var first := NextRowId(SectionsWithout(t.sections, v).Keys);
    NumberedRows(first, v, inputs);
    assert t.sections[s].versionId == v && !(first <= s < first + |inputs|);
  }

  lemma CurrentRepairs(t: Tables, u: Tables, w: Tables, v: nat, inputs: seq<SectionInput>)
    requires ReferencesResolve(t) && v in t.versions && t.versions[v].isCurrent && !StrandsARow(t, v, inputs)
    requires ReplacedSections(t.sections, v, inputs).Ok? && u == t.(sections := ReplacedSections(t.sections, v, inputs).value)
    requires var cleared := DocumentSections(u, t.versions[v].documentId);
             w == u.(index := Carried(t, Projection(u) + StrandedRows(t, u), cleared))
    ensures AstrayUncleared(t, w, DocumentSections(u, t.versions[v].documentId))
  {
    ReplacedSectionsFacts(t.sections, v, inputs);
    SameCatalogSameProjection(u, w);
    var cleared := DocumentSections(u, t.versions[v].documentId);
    OwnSectionsStay(u, t.versions[v].documentId);
    hide ReferencesResolve, StrandsARow, ReplacedSections, SectionsReplaced, Projection, DocumentSections, RebuiltAlike;
    forall s
      ensures Astray(w, s) <==> Astray(t, s) && s !in cleared
    {
      ReplacedElsewhere(t, u, v, inputs, s);
      RowAfterReplacement(t, u, w, cleared, s);
    }
  }

  lemma OwnSectionsStay(u: Tables, d: nat)
    ensures forall s :: s in DocumentSections(u, d) ==> s in u.sections
  {
  }

  lemma RowAfterReplacement(t: Tables, u: Tables, w: Tables, cleared: set<nat>, s: nat)
    requires w.index == Carried(t, Projection(u) + StrandedRows(t, u), cleared) && Projection(w) == Projection(u)
    requires s in cleared ==> s in u.sections
    requires s in t.sections && s !in u.sections ==> s !in Projection(t)
    requires s !in cleared ==> RebuiltAlike(t, Projection(u), s)
    ensures Astray(w, s) <==> Astray(t, s) && s !in cleared
  {
    InProjection(t, s);
    InProjection(u, s);
    hide Projection;
  }

  lemma InProjection(t: Tables, s: nat)
    ensures s in Projection(t) ==> s in t.sections
  {
  }

  lemma PendingElsewhere(t: Tables, sections: map<nat, Section>, v: nat, now: int, s: nat)
    requires ReferencesResolve(t) && v in t.versions && !t.versions[v].isCurrent && SectionsReplaced(t.sections, sections, v)
    requires s !in DocumentSections(t.(sections := sections), t.versions[v].documentId)
    ensures var d := t.versions[v].documentId;
            var done := t.(sections := sections, versions := PromotedVersions(t.versions, v), documents := PointedTo(t.documents, d, v, now));
            RebuiltAlike(t, Projection(done), s)
  {
    var d := t.versions[v].documentId;
    var replaced := t.(sections := sections);
    var flagged := replaced.(versions := PromotedVersions(t.versions, v));
    var done := flagged.(documents := PointedTo(t.documents, d, v, now));
    PendingShape(t, sections, v);
    ReplacingOldSections(t, replaced, v);
    hide ReferencesResolve, UpsertShape, FlagMoved, SectionsReplaced, Projection, DocumentSections, PromotedVersions, PointedTo;
    UpsertedThenPromoted(replaced, done, DocumentWrite(t.documents, d), d, v, now);
    PromotedResolves(replaced, done, d, v);
    PromotedOutside(replaced, done, d, v);
    if s in sections {
      OutsideSectionsAlike(replaced, done, d, s);
      AlikeInProjection(replaced, done, s);
    } else {
      InProjection(replaced, s);
      InProjection(done, s);
    }
  }

  lemma AlikeInProjection(t: Tables, u: Tables, s: nat)
    requires s in t.sections && s in u.sections && SearchableSection(t, s) == SearchableSection(u, s)
    requires SearchableSection(t, s) ==> IndexedText(t, s) == IndexedText(u, s)
    ensures RebuiltAlike(t, Projection(u), s)
  {
  }

  lemma ReplacementRepairs(t: Tables, owned: map<nat, OwnerToken>, v: nat, inputs: seq<SectionInput>, now: int)
    requires BaseConsistent(t) && !StrandsARow(t, v, inputs)
    ensures var out, cleared := ReplaceSections(t, owned, v, inputs, now), ClearedByReplacement(t, v, inputs);
            out.error.None? ==> AstrayUncleared(t, Left(t, out, cleared), cleared)
  {
    var out, cleared := ReplaceSections(t, owned, v, inputs, now), ClearedByReplacement(t, v, inputs);
    hide BaseConsistent, ReferencesResolve, StrandsARow, ReplacedSections, SectionsReplaced, Projection, DocumentSections, Carried, Astray,
         AstrayUncleared, RebuiltAlike, StrandedRows, PromotedVersions, PointedTo, UniqueVersions, UniqueDocuments;
    BaseParts(t);
    if out.error.None? {
      ReplacedSectionsFacts(t.sections, v, inputs);
      var sections := ReplacedSections(t.sections, v, inputs).value;
      var replaced := t.(sections := sections);
      LeftProjection(t, out, cleared);
      if t.versions[v].pendingCurrent {
        PendingIsOld(t, v);
        SameCatalogSameProjection(out.tables, out.tables.(index := map[]));
        var done := replaced.(versions := PromotedVersions(t.versions, v), documents := PointedTo(t.documents, t.versions[v].documentId, v, now));
        SameCatalogSameProjection(out.tables, done);
        forall s | Astray(t, s) && s !in cleared
          ensures RebuiltAlike(t, out.tables.index, s)
        {
          PendingElsewhere(t, sections, v, now, s);
        }
        AstrayAfter(t, Left(t, out, cleared), out.tables.index, cleared);
      } else if t.versions[v].isCurrent {
        CurrentRepairs(t, replaced, Left(t, out, cleared), v, inputs);
      } else {
        ReplacingOldSections(t, replaced, v);
        SameCatalogSameProjection(out.tables, replaced);
        Unchanged(t, out);
      }
    }
  }

  lemma PendingIsOld(t: Tables, v: nat)
    requires PointersMatchFlags(t.documents, t.versions) && v in t.versions && t.versions[v].pendingCurrent
    ensures !t.versions[v].isCurrent
  {
  }

  /*** The other operations ***/

  // An operation the index does not show changes no row.
  lemma Unchanged(t: Tables, out: Outcome)
    requires out.error.None? && Projection(out.tables) == Projection(t) && out.tables.index == Projection(t)
    ensures AstrayUncleared(t, Left(t, out, {}), {})
  {
    hide Projection;
    LeftProjection(t, out, {});
    AstrayAfter(t, Left(t, out, {}), out.tables.index, {});
  }

  // Nor does one that changes runs only.
  lemma RunsAlone(t: Tables, out: Outcome)
    requires out.error.None? && out.tables == t.(runs := out.tables.runs)
    ensures AstrayUncleared(t, Left(t, out, {}), {})
  {
    SameCatalogSameProjection(out.tables, t);
    LeftProjection(t, out, {});
    hide Projection;
  }

  // A rebuilt index has nothing astray.
  lemma Rebuilt(t: Tables, out: Outcome)
    requires out.error.None? && out.tables.index == Projection(out.tables)
    ensures var cleared := t.index.Keys + Projection(t).Keys; AstrayUncleared(t, Left(t, out, cleared), cleared)
  {
    var cleared := t.index.Keys + Projection(t).Keys;
    LeftProjection(t, out, cleared);
    hide Projection;
  }

  lemma ReindexedIndex(u: Tables)
    ensures Reindexed(u).index == Projection(Reindexed(u)) == Projection(u)
  {
    SameCatalogSameProjection(u, Reindexed(u));
  }

  lemma ObservedProjection(t: Tables, x: Tables, owned: map<nat, OwnerToken>, d: nat, observation: Option<Observation>, at: int)
    requires Observe(t, x, owned, d, observation, at).error.None?
    ensures Projection(Observe(t, x, owned, d, observation, at).tables) == Projection(x)
  {
    hide Projection;
    if observation.Some? {
      ObservedKeepsCatalog(x, d, observation.value, at);
    }
  }

  lemma TouchRepairs(t: Tables, owned: map<nat, OwnerToken>, d: nat, observation: Option<Observation>, now: int)
    ensures var out := TouchDocument(t, owned, d, observation, now); out.error.None? ==> AstrayUncleared(t, Left(t, out, {}), {})
  {
    hide Projection, Observe, AstrayUncleared, Left;
    var out := TouchDocument(t, owned, d, observation, now);
    if out.error.None? {
      var x := t.(documents := t.documents[d := t.documents[d].(lastSeenAt := now)]);
      TouchKeepsProjection(t, d, now);
      ObservedProjection(t, x, owned, d, observation, now);
      ReindexedIndex(Observe(t, x, owned, d, observation, now).tables);
      Unchanged(t, out);
    }
  }

  lemma RecordRepairs(t: Tables, owned: map<nat, OwnerToken>, d: nat, observation: Observation, now: int)
    ensures var out := RecordObservation(t, owned, d, observation, now); out.error.None? ==> AstrayUncleared(t, Left(t, out, {}), {})
  {
    hide Projection, Observe, AstrayUncleared, Left;
    var out := RecordObservation(t, owned, d, observation, now);
    if out.error.None? {
      ObservedProjection(t, t, owned, d, Some(observation), now);
      ReindexedIndex(Observe(t, t, owned, d, Some(observation), now).tables);
      Unchanged(t, out);
    }
  }

  lemma AddVersionRepairs(t: Tables, owned: map<nat, OwnerToken>, input: VersionInput, now: int)
    requires BaseConsistent(t)
    ensures var out := AddVersion(t, owned, input, now); out.error.None? ==> AstrayUncleared(t, Left(t, out, {}), {})
  {
    hide Projection, AstrayUncleared, Left, AddedVersion, BaseConsistent, UniqueVersions;
    BaseParts(t);
    var out := AddVersion(t, owned, input, now);
    if out.error.None? {
      var w := AddedVersion(t.versions, input, now);
      AddedVersionFacts(t.versions, input, now);
      SameFlagSameProjection(t, t.(versions := w.versions), w.written);
      ReindexedIndex(t.(versions := w.versions));
      Unchanged(t, out);
    }
  }

  lemma AddSourceRepairs(t: Tables, owned: map<nat, OwnerToken>, input: SourceInput, now: int)
    requires ReferencesResolve(t)
    ensures var out := AddSource(t, owned, input, now); out.error.None? ==> AstrayUncleared(t, Left(t, out, {}), {})
  {
    hide Projection, AstrayUncleared, Left, ReferencesResolve;
    var out := AddSource(t, owned, input, now);
    if out.error.None? {
      var s, row := NextRowId(t.sources.Keys), Source(input.key, input.displayName, input.enabled, now, now);
      NewSourceIndexesNothing(t, s, row);
      ReindexedIndex(t.(sources := t.sources[s := row]));
      Unchanged(t, out);
    }
  }

  lemma PurgeRepairs(t: Tables, owned: map<nat, OwnerToken>, scope: Option<string>, keep: nat)
    requires ReferencesResolve(t)
    ensures var cleared := SectionsOfVersions(t.sections, PurgeCandidates(t, scope, keep));
            AstrayUncleared(t, Left(t, Succeeded(Purge(t, scope, keep), owned), cleared), cleared)
  {
    var candidates := PurgeCandidates(t, scope, keep);
    PurgeCarriesIndex(t, candidates);
    hide Projection, ReferencesResolve, SectionsOfVersions, PurgeCandidates, Carried;
    var cleared := SectionsOfVersions(t.sections, candidates);
    var out := Succeeded(Purge(t, scope, keep), owned);
    LeftProjection(t, out, cleared);
    ReindexedIndex(t.(versions := t.versions - candidates, sections := t.sections - cleared));
    AstrayAfter(t, Left(t, out, cleared), out.tables.index, cleared);
  }

  // Over any index: the operation that succeeds and does not fall short clears exactly the rows astray
  // among those it deletes, and leaves the others astray as they are.
  lemma StepRepairsExactly(t: Tables, owned: map<nat, OwnerToken>, op: Op)
    requires BaseConsistent(t) && !FallsShort(t, op) && Execute(t, owned, op).error.None?
    ensures AstrayUncleared(t, Execute(t, owned, op).tables, Cleared(t, op))
  {
    hide BaseConsistent, Left, AstrayUncleared, UpsertDocument, Commit, TouchDocument, RecordObservation, AddVersion, ReplaceSections, Purge,
         AddSource, MissesARow, StrandsARow, Projection, CommitCollides, InsertRun, CompleteRun, RecoverRuns;
    BaseParts(t);
    match op
    case UpsertOp(document, observation, now, observedAt) => UpsertRepairs(t, owned, document, observation, now, observedAt);
    case CommitOp(revision, observation, times) => CommitRepairs(t, owned, revision, observation, times);
    case ReplaceSectionsOp(v, sections, now) => ReplacementRepairs(t, owned, v, sections, now);
    case TouchOp(d, observation, now) => TouchRepairs(t, owned, d, observation, now);
    case RecordOp(d, o, now) => RecordRepairs(t, owned, d, o, now);
    case AddVersionOp(version, now) => AddVersionRepairs(t, owned, version, now);
    case AddSourceOp(source, now) => AddSourceRepairs(t, owned, source, now);
    case UpdateSourceOp(source, now) => UpdateSourceRepairs(t, owned, source, now);
    case PurgeOp(scope, keep) => PurgeRepairs(t, owned, scope, keep);
    case RebuildOp =>
      ReindexedIndex(t);
      Rebuilt(t, Apply(t, owned, op));
    case _ => RunsAlone(t, Apply(t, owned, op));
  }

  lemma UpdateSourceRepairs(t: Tables, owned: map<nat, OwnerToken>, input: SourceInput, now: int)
    ensures var out, cleared := UpdateSource(t, owned, input, now), t.index.Keys + Projection(t).Keys;
            out.error.None? ==> AstrayUncleared(t, Left(t, out, cleared), cleared)
  {
    hide Projection, AstrayUncleared, Left;
    var out := UpdateSource(t, owned, input, now);
    if out.error.None? {
      ReindexedIndex(t.(sources := out.tables.sources));
      Rebuilt(t, out);
    }
  }

  // A rebuild or an update of a source makes the index agree again, whatever it was.
  lemma RebuildRestores(t: Tables, owned: map<nat, OwnerToken>, op: Op)
    requires BaseConsistent(t) && (op.UpdateSourceOp? || op.RebuildOp?) && Execute(t, owned, op).error.None?
    ensures CatalogConsistent(Execute(t, owned, op).tables)
  {
    hide BaseConsistent, Projection, Execute;
    StepRepairsExactly(t, owned, op);
    ExecuteKeepsBase(t, owned, op);
    var u := Execute(t, owned, op).tables;
    forall s
      ensures !Astray(u, s)
    {
      assert Astray(u, s) <==> Astray(t, s) && s !in Cleared(t, op);
    }
    NoneAstray(u);
  }

  lemma NoneAstray(u: Tables)
    requires forall s :: !Astray(u, s)
    ensures IndexAgrees(u)
  {
    hide Projection;
    assert forall s :: !Astray(u, s) ==> (s in u.index <==> s in Projection(u));
  }

  /*** Commits kept out ***/

  // The index rows a new document would get.
  lemma NewDocumentRow(t: Tables, x: Tables, d: nat, v: nat, first: nat, inputs: seq<SectionInput>, s: nat)
    requires ReferencesResolve(t) && d in x.documents && x.documents[d].sourceId in t.sources && x.sources == t.sources
    requires v !in t.versions && v in x.versions && x.versions[v].documentId == d
    requires forall k :: k in t.sections ==> k < first
    requires x.sections == t.sections + NumberedSections(first, v, inputs)
    ensures s in VersionProjection(x, v) <==> first <= s < first + |inputs| && DocumentSearchable(x, d)
  {
    NumberedRows(first, v, inputs);
    hide NumberedSections;
    if s in x.sections {
      assert s in NumberedSections(first, v, inputs) || t.sections[s].versionId != v;
    }
  }

  lemma NewDocumentRows(t: Tables, revision: RevisionInput, times: CommitTimes)
    requires ReferencesResolve(t) && revision.document.sourceId in t.sources
    ensures var d, v, first := NextRowId(t.documents.Keys), NextRowId(t.versions.Keys), NextRowId(t.sections.Keys);
            var x := WithDocument(t, revision, times).(documents := t.documents[d := NewDocument(revision.document, times.document)]);
            && (forall s: nat :: s in VersionProjection(x, v) <==>
                  && first <= s < first + |revision.sections|
                  && revision.document.status.Active? && t.sources[revision.document.sourceId].enabled)
            && DocumentSections(t, d) == {}
  {
    var d, v, first := NextRowId(t.documents.Keys), NextRowId(t.versions.Keys), NextRowId(t.sections.Keys);
    var x := WithDocument(t, revision, times).(documents := t.documents[d := NewDocument(revision.document, times.document)]);
    NoSectionsOfNew(t, d);
    assert DocumentSearchable(x, d) == (revision.document.status.Active? && t.sources[revision.document.sourceId].enabled);
    hide VersionProjection, NumberedSections, ReferencesResolve, DocumentSections, DocumentSearchable, NextRowId;
    forall s: nat
      ensures s in VersionProjection(x, v) <==> first <= s < first + |revision.sections| && DocumentSearchable(x, d)
    {
      NewDocumentRow(t, x, d, v, first, revision.sections, s);
    }
  }

  lemma NoSectionsOfNew(t: Tables, d: nat)
    requires ReferencesResolve(t) && d !in t.documents
    ensures DocumentSections(t, d) == {}
  {
  }

  // A new document is kept out exactly if it would be shown and one of its sections gets the id of a
  // row left over in the index.
  lemma NewDocumentCollidesExactly(t: Tables, revision: RevisionInput, times: CommitTimes)
    requires ReferencesResolve(t) && IsNew(t, revision.document)
    requires 0 < |revision.sections| <= MAX_PERSISTED_DOCUMENT_SECTIONS && DistinctOrdinals(revision.sections)
    ensures CommitCollides(t, revision, times) <==>
              && revision.document.status.Active? && t.sources[revision.document.sourceId].enabled
              && exists s: nat :: s in t.index && 0 <= s - NextRowId(t.sections.Keys) < |revision.sections|
  {
    hide UpsertDocumentRows, ResolvedDocument, IsNew, ReferencesResolve, UpsertVersionRow, ClearCurrentVersions, ReplacedSections,
         DistinctOrdinals, NumberedSections, VersionRow, VersionProjection, DocumentSections;
    var d, v := NextRowId(t.documents.Keys), NextRowId(t.versions.Keys);
    NewIsSourced(t, revision.document);
    NewRowUpserted(t, revision.document, times.document);
    NewVersionInserted(t, d, revision.version.(documentId := d, isCurrent := true), times.version);
    NewSectionsInserted(t, revision.sections);
    NewDocumentRows(t, revision, times);
    var w := UpsertDocumentRows(t, revision.document, times.document).value;
    var x := RevisionRows(t, w.documents, d, revision, times).value;
    assert x.(documents := w.documents) == WithDocument(t, revision, times).(documents := w.documents);
    assert t.index - {} == t.index;
  }

  lemma NewIsSourced(t: Tables, input: DocumentInput)
    requires IsNew(t, input)
    ensures input.sourceId in t.sources
  {
  }

  /*** Histories of the statements ***/

  ghost function Executed(st: State, events: seq<Event>): State
    decreases |events|
  {
    if events == [] then st
    else
      var out := Execute(st.tables, TokensOf(st, events[0].store), events[0].op);
      Executed(State(out.tables, st.owned[events[0].store := out.owned]), events[1..])
  }

  // Whatever the index comes to be, the base tables stay consistent over every history.
  lemma {:induction false} ExecutedKeepsBase(st: State, events: seq<Event>)
    requires BaseConsistent(st.tables)
    ensures BaseConsistent(Executed(st, events).tables)
    decreases |events|
  {
    hide BaseConsistent, Execute;
    if events != [] {
      var out := Execute(st.tables, TokensOf(st, events[0].store), events[0].op);
      ExecuteKeepsBase(st.tables, TokensOf(st, events[0].store), events[0].op);
      ExecutedKeepsBase(State(out.tables, st.owned[events[0].store := out.owned]), events[1..]);
    }
  }

  // A history of service calls, executed statement by statement, is the one of the simple form: it
  // leaves a catalog the integrity check finds nothing in.
  lemma {:induction false} ServiceHistoriesExecute(st: State, events: seq<Event>, idOf: (nat, string) -> string,
                                                  tokenize: string -> seq<string>)
    requires CatalogConsistent(st.tables) && LedgerResolves(st.tables) && NothingMissing(st.tables) && Derived(st.tables, idOf)
    requires forall i :: 0 <= i < |events| ==> ServiceCall(events[i].op, idOf)
    ensures Executed(st, events) == After(st, events) && Sound(Executed(st, events).tables, tokenize)
  {
    ServiceHistoriesStaySound(st, events, idOf, tokenize);
    ServiceHistoriesNeverFallShort(st, events, idOf);
    ExecutedIsSimple(st, events);
  }

  lemma {:induction false} ServiceHistoriesNeverFallShort(st: State, events: seq<Event>, idOf: (nat, string) -> string)
    requires BaseConsistent(st.tables) && Derived(st.tables, idOf)
    requires forall i :: 0 <= i < |events| ==> ServiceCall(events[i].op, idOf)
    ensures NeverFallsShort(st, events)
    decreases |events|
  {
    hide BaseConsistent, Derived, FallsShort, ActivatesUnversioned, Apply;
    if events != [] {
      var owned, op := TokensOf(st, events[0].store), events[0].op;
      BaseParts(st.tables);
      ServiceCallsKeepAgreement(st.tables, op, idOf);
      StepKeepsBase(st.tables, owned, op);
      StepKeepsDerived(st.tables, owned, op, idOf);
      ServiceHistoriesNeverFallShort(Happen(st, events[0]), events[1..], idOf);
    }
  }

  // While no step falls short, executing the statements is applying the simple form.
  lemma {:induction false} ExecutedIsSimple(st: State, events: seq<Event>)
    requires CatalogConsistent(st.tables) && NeverFallsShort(st, events)
    ensures Executed(st, events) == After(st, events)
    decreases |events|
  {
    hide BaseConsistent, IndexAgrees, FallsShort, Apply, Execute;
    if events != [] {
      var owned, op := TokensOf(st, events[0].store), events[0].op;
      ConsistentExecutes(st.tables, owned, op);
      StepKeepsBase(st.tables, owned, op);
      StepAgreesExactly(st.tables, owned, op);
      ExecutedIsSimple(Happen(st, events[0]), events[1..]);
    }
  }
}
