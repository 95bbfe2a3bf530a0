// Whole histories: what any number of stores keep over any sequence of transactions.
module CatalogRuns {
  import opened Prelude
  import opened CatalogTables
  import opened CatalogInvariant
  import opened CatalogObservations
  import opened CatalogTransactions
  import opened CatalogIndexing
  import opened CatalogPurge
  import opened CatalogHistory
  import opened CatalogAgreement
  import opened CatalogLedger
  import opened CatalogIntegrity

  /*** The fence ***/

  function ObservationOf(op: Op): Option<Observation> {
    match op
    case UpsertOp(_, observation, _, _) => observation
    case CommitOp(_, observation, _) => observation
    case TouchOp(_, observation, _) => observation
    case RecordOp(_, recorded, _) => Some(recorded)
    case _ => None
  }

  lemma FencedObservation(t: Tables, x: Tables, owned: map<nat, OwnerToken>, d: nat, o: Observation, at: int)
    requires x.runs == t.runs
    ensures var out := Observe(t, x, owned, d, Some(o), at);
            && (out.error.None? ==> MayWrite(t, owned, o))
            && (out.error.Some? ==> out.tables == t)
            && (out.error == Some(OwnershipLost) ==> o.runId !in out.owned)
  {
  }

  lemma RefusedRow(t: Tables, input: DocumentInput, now: int)
    ensures UpsertDocumentRows(t, input, now).Err? ==> UpsertDocumentRows(t, input, now).error == ConstraintViolation
  {
  }

  // A document write with an observation succeeds only while its run is RUNNING under the writer's
  // token; and a failed one changes no table at all.
  lemma StaleWritersChangeNothing(t: Tables, owned: map<nat, OwnerToken>, op: Op)
    requires ObservationOf(op).Some?
    ensures Apply(t, owned, op).error.None? ==> MayWrite(t, owned, ObservationOf(op).value)
    ensures Apply(t, owned, op).error.Some? ==> Apply(t, owned, op).tables == t
    ensures Apply(t, owned, op).error == Some(OwnershipLost) ==> ObservationOf(op).value.runId !in Apply(t, owned, op).owned
  {
    hide MayWrite, UpsertDocument, Commit, TouchDocument, RecordObservation, Observe, Projection;
    match op
    case UpsertOp(document, Some(o), now, observedAt) => FencedUpsert(t, owned, document, o, now, observedAt);
    case CommitOp(revision, Some(o), times) => FencedCommit(t, owned, revision, o, times);
    case TouchOp(d, Some(o), now) => FencedTouch(t, owned, d, o, now);
    case RecordOp(d, o, now) => FencedRecord(t, owned, d, o, now);
  }

  lemma FencedUpsert(t: Tables, owned: map<nat, OwnerToken>, input: DocumentInput, o: Observation, now: int, observedAt: int)
    ensures var out := UpsertDocument(t, owned, input, Some(o), now, observedAt);
            && (out.error.None? ==> MayWrite(t, owned, o))
            && (out.error.Some? ==> out.tables == t)
            && (out.error == Some(OwnershipLost) ==> o.runId !in out.owned)
  {
    hide Observe, MayWrite, UpsertDocumentRows, ResolvedDocument, RefreshedFor;
    var rows := UpsertDocumentRows(t, input, now);
    RefusedRow(t, input, now);
    if rows.Ok? {
      FencedObservation(t, t.(documents := rows.value.documents), owned, ResolvedDocument(rows.value, input), o, observedAt);
    }
  }

  lemma FencedTouch(t: Tables, owned: map<nat, OwnerToken>, d: nat, o: Observation, now: int)
    ensures var out := TouchDocument(t, owned, d, Some(o), now);
            && (out.error.None? ==> MayWrite(t, owned, o))
            && (out.error.Some? ==> out.tables == t)
            && (out.error == Some(OwnershipLost) ==> o.runId !in out.owned)
  {
    hide Observe, MayWrite, Projection;
    if d in t.documents {
      FencedObservation(t, t.(documents := t.documents[d := t.documents[d].(lastSeenAt := now)]), owned, d, o, now);
    }
  }

  lemma FencedRecord(t: Tables, owned: map<nat, OwnerToken>, d: nat, o: Observation, now: int)
    ensures var out := RecordObservation(t, owned, d, o, now);
            && (out.error.None? ==> MayWrite(t, owned, o))
            && (out.error.Some? ==> out.tables == t)
            && (out.error == Some(OwnershipLost) ==> o.runId !in out.owned)
  {
    hide Observe, MayWrite, Projection;
    FencedObservation(t, t, owned, d, o, now);
  }

  lemma FencedCommit(t: Tables, owned: map<nat, OwnerToken>, revision: RevisionInput, o: Observation, times: CommitTimes)
    ensures var out := Commit(t, owned, revision, Some(o), times);
            && (out.error.None? ==> MayWrite(t, owned, o))
            && (out.error.Some? ==> out.tables == t)
            && (out.error == Some(OwnershipLost) ==> o.runId !in out.owned)
  {
    hide Observe, MayWrite, UpsertDocumentRows, ResolvedDocument, RefreshedFor;
    var rows := UpsertDocumentRows(t, revision.document, times.document);
    RefusedRow(t, revision.document, times.document);
    if rows.Ok? {
      var d := ResolvedDocument(rows.value, revision.document);
      var r := RevisionRows(t, rows.value.documents, d, revision, times);
      if r.Ok? {
        FencedObservation(t, r.value, owned, d, o, times.pointer);
      }
    }
  }

  /*** Completeness ***/

  // The operation makes active a document that has no current version.
  predicate ActivatesUnversioned(t: Tables, op: Op) {
    match op
    case UpsertOp(document, _, _, _) =>
      document.status.Active?
      && forall a | a in t.documents :: HasKey(t.documents[a], document.sourceId, document.stableKey) ==>
           t.documents[a].currentVersion.None?
    case CommitOp(revision, _, _) =>
      revision.document.status.Active?
      && exists a, b | a in t.documents && b in t.documents ::
           Misaddressed(t, revision.document, a, b) && t.documents[a].currentVersion.None?
    case _ => false
  }

  // The observation and the refresh leave documents, sections and sources as they were written.
  lemma FinishedTables(t: Tables, x: Tables, owned: map<nat, OwnerToken>, d: nat, observation: Option<Observation>, at: int,
                       documents: map<nat, Document>, written: nat)
    requires Observe(t, x, owned, d, observation, at).error.None?
    ensures var u := Observe(t, x, owned, d, observation, at).tables;
            && u.documents == x.documents && u.sections == x.sections && u.sources == x.sources
            && RefreshedFor(u, documents, written, d) == u.(index := RefreshedFor(u, documents, written, d).index)
  {
  }

  lemma UpsertCompleteExactly(t: Tables, owned: map<nat, OwnerToken>, input: DocumentInput,
                              observation: Option<Observation>, now: int, observedAt: int)
    requires ReferencesResolve(t) && UniqueDocuments(t.documents) && NothingMissing(t)
    ensures var out := UpsertDocument(t, owned, input, observation, now, observedAt);
            NothingMissing(out.tables) <==>
              (out.error.Some? || !ActivatesUnversioned(t, UpsertOp(input, observation, now, observedAt)))
  {
    hide ReferencesResolve, UniqueDocuments, UpsertDocumentRows, ResolvedDocument, RefreshedFor, Observe;
    var out := UpsertDocument(t, owned, input, observation, now, observedAt);
    var rows := UpsertDocumentRows(t, input, now);
    if rows.Ok? {
      var w := rows.value;
      var d := ResolvedDocument(w, input);
      var x := t.(documents := w.documents);
      Addressing(t, input, now);
      FailedObservation(t, x, owned, d, observation, observedAt);
      if out.error.None? {
        UpsertedRowMatches(t, input, now);
        FinishedTables(t, x, owned, d, observation, observedAt, t.documents, w.written);
        assert w.documents[w.written].status == input.status;
        assert ActivatesUnversioned(t, UpsertOp(input, observation, now, observedAt)) <==>
                 w.documents[w.written].status.Active? && w.documents[w.written].currentVersion.None?;
      }
    }
  }

  // After a revision is stored, its document points to a version with sections; other rows are as upserted.
  lemma RevisionCompletes(t: Tables, w: DocumentWrite, d: nat, revision: RevisionInput, times: CommitTimes)
    requires UniqueVersions(t.versions) && PointersMatchFlags(t.documents, t.versions) && NothingMissing(t)
    requires UpsertShape(t, w, d) && revision.sections != []
    requires RevisionRows(t, w.documents, d, revision, times).Ok?
    ensures var x := RevisionRows(t, w.documents, d, revision, times).value;
            && x.documents.Keys == w.documents.Keys && x.documents[d].currentVersion.Some?
            && (forall e | e in x.documents && e != d :: x.documents[e] == w.documents[e])
            && (forall e :: e in x.documents && x.documents[e].currentVersion.Some? ==>
                  exists s :: s in x.sections && x.sections[s].versionId == x.documents[e].currentVersion.value)
  {
    hide UniqueVersions, FlagMoved, SectionsReplaced;
    var x := RevisionRows(t, w.documents, d, revision, times).value;
    var v := RevisionVersion(t.versions, d, revision, times);
    CommittedVersionMovesFlag(t.versions, revision.version, d, times.version);
    ReplacedSectionsFacts(t.sections, v, revision.sections);
    forall e | e in x.documents && x.documents[e].currentVersion.Some?
      ensures exists s :: s in x.sections && x.sections[s].versionId == x.documents[e].currentVersion.value
    {
      if e != d {
        var p := t.documents[e].currentVersion.value;
        OthersKeepSections(t, x, d, v, e, p);
      }
    }
  }

  lemma OthersKeepSections(t: Tables, x: Tables, d: nat, v: nat, e: nat, p: nat)
    requires PointersMatchFlags(t.documents, t.versions) && NothingMissing(t)
    requires FlagMoved(t.versions, x.versions, d, v) && SectionsReplaced(t.sections, x.sections, v)
    requires e in t.documents && e != d && t.documents[e].currentVersion == Some(p)
    ensures exists s :: s in x.sections && x.sections[s].versionId == p
  {
    assert p != v;
    var s :| s in t.sections && t.sections[s].versionId == p;
    assert s in x.sections && x.sections[s].versionId == p;
  }

  lemma CommitActivates(t: Tables, revision: RevisionInput, observation: Option<Observation>, times: CommitTimes)
    requires ReferencesResolve(t) && UniqueDocuments(t.documents)
    requires UpsertDocumentRows(t, revision.document, times.document).Ok?
    ensures var w := UpsertDocumentRows(t, revision.document, times.document).value;
            var d := ResolvedDocument(w, revision.document);
            ActivatesUnversioned(t, CommitOp(revision, observation, times)) <==>
              w.written != d && w.documents[w.written].status.Active? && w.documents[w.written].currentVersion.None?
  {
    Addressing(t, revision.document, times.document);
    hide UpsertDocumentRows, ResolvedDocument, UniqueDocuments;
    var w := UpsertDocumentRows(t, revision.document, times.document).value;
    var d := ResolvedDocument(w, revision.document);
    if w.written != d {
      assert Misaddressed(t, revision.document, w.written, d);
    }
  }

  lemma CompleteUnlessActivated(t: Tables, u: Tables, w: DocumentWrite, d: nat)
    requires NothingMissing(t) && UpsertShape(t, w, d)
    requires u.documents.Keys == w.documents.Keys && u.documents[d].currentVersion.Some?
    requires forall e | e in u.documents && e != d :: u.documents[e] == w.documents[e]
    requires forall e :: e in u.documents && u.documents[e].currentVersion.Some? ==>
               exists s :: s in u.sections && u.sections[s].versionId == u.documents[e].currentVersion.value
    ensures NothingMissing(u) <==>
              !(w.written != d && w.documents[w.written].status.Active? && w.documents[w.written].currentVersion.None?)
  {
  }

  lemma CommitCompleteExactly(t: Tables, owned: map<nat, OwnerToken>, revision: RevisionInput,
                              observation: Option<Observation>, times: CommitTimes)
    requires BaseConsistent(t) && NothingMissing(t)
    ensures var out := Commit(t, owned, revision, observation, times);
            NothingMissing(out.tables) <==>
              (out.error.Some? || !ActivatesUnversioned(t, CommitOp(revision, observation, times)))
  {
    hide ReferencesResolve, UniqueDocuments, UniqueVersions, PointersMatchFlags, UpsertDocumentRows, ResolvedDocument, RefreshedFor,
         Observe, RevisionRows;
    var out := Commit(t, owned, revision, observation, times);
    var input := revision.document;
    var rows := UpsertDocumentRows(t, input, times.document);
    if revision.sections != [] && rows.Ok? {
      var w := rows.value;
      var d := ResolvedDocument(w, input);
      Addressing(t, input, times.document);
      var r := RevisionRows(t, w.documents, d, revision, times);
      if r.Ok? {
        FailedObservation(t, r.value, owned, d, observation, times.pointer);
        if out.error.None? {
          RevisionCompletes(t, w, d, revision, times);
          FinishedTables(t, r.value, owned, d, observation, times.pointer, t.documents, w.written);
          CommitActivates(t, revision, observation, times);
          CompleteUnlessActivated(t, out.tables, w, d);
        }
      }
    }
  }

  lemma UpsertedRowMatches(t: Tables, input: DocumentInput, now: int)
    requires ReferencesResolve(t) && UniqueDocuments(t.documents) && UpsertDocumentRows(t, input, now).Ok?
    ensures var a := UpsertDocumentRows(t, input, now).value.written;
            forall e | e in t.documents :: HasKey(t.documents[e], input.sourceId, input.stableKey) <==> e == a
  {
    var matches := DocumentsByKey(t.documents, input.sourceId, input.stableKey);
    var a := UpsertDocumentRows(t, input, now).value.written;
    if matches == {} {
      assert forall e | e in t.documents :: HasKey(t.documents[e], input.sourceId, input.stableKey) ==> e in matches;
    } else {
      assert a in matches;
    }
  }

  lemma SectionsKeepComplete(t: Tables, u: Tables, v: nat)
    requires NothingMissing(t) && SectionsReplaced(t.sections, u.sections, v)
    requires u.documents.Keys == t.documents.Keys
    requires forall e | e in t.documents :: u.documents[e].status == t.documents[e].status
    requires forall e | e in t.documents ::
               u.documents[e].currentVersion == t.documents[e].currentVersion || u.documents[e].currentVersion == Some(v)
    requires (exists e :: e in u.documents && u.documents[e].currentVersion == Some(v)) ==>
               exists s :: s in u.sections && u.sections[s].versionId == v
    ensures NothingMissing(u)
  {
    forall e | e in u.documents && u.documents[e].currentVersion.Some?
      ensures exists s :: s in u.sections && u.sections[s].versionId == u.documents[e].currentVersion.value
    {
      if u.documents[e].currentVersion != Some(v) {
        var s :| s in t.sections && t.sections[s].versionId == t.documents[e].currentVersion.value;
        assert s in u.sections && u.sections[s] == t.sections[s];
      }
    }
  }

  lemma ReplaceSectionsKeepsComplete(t: Tables, owned: map<nat, OwnerToken>, v: nat, inputs: seq<SectionInput>, now: int)
    requires ReferencesResolve(t) && PointersMatchFlags(t.documents, t.versions) && NothingMissing(t)
    ensures NothingMissing(ReplaceSections(t, owned, v, inputs, now).tables)
  {
    hide ReplacedSections, NothingMissing, SectionsReplaced, StrandedRows, Projection, PointedTo, PromotedVersions;
    var out := ReplaceSections(t, owned, v, inputs, now);
    if out.error.None? {
      ReplacedSectionsFacts(t.sections, v, inputs);
      var d := t.versions[v].documentId;
      if inputs == [] {
        NothingPoints(t, v);
      }
      if t.versions[v].pendingCurrent {
        assert out.tables.documents == PointedTo(t.documents, d, v, now);
        PointedRows(t.documents, d, v, now);
      } else {
        assert out.tables.documents == t.documents;
      }
      SectionsKeepComplete(t, out.tables, v);
    }
  }

  lemma PointedRows(documents: map<nat, Document>, d: nat, v: nat, now: int)
    ensures var after := PointedTo(documents, d, v, now);
            && after.Keys == documents.Keys
            && forall e | e in documents :: && after[e].status == documents[e].status
                                            && (after[e].currentVersion == documents[e].currentVersion || after[e].currentVersion == Some(v))
  {
  }

  // No document points to a version that is neither current nor pending.
  lemma NothingPoints(t: Tables, v: nat)
    requires PointersMatchFlags(t.documents, t.versions) && v in t.versions
    ensures !t.versions[v].isCurrent ==> forall e :: e in t.documents ==> t.documents[e].currentVersion != Some(v)
  {
  }

  lemma PurgeKeepsComplete(t: Tables, scope: Option<string>, keep: nat)
    requires BaseConsistent(t) && NothingMissing(t)
    ensures NothingMissing(Purge(t, scope, keep))
  {
    NoPointerIsPurged(t, scope, keep);
    var u := Purge(t, scope, keep);
    hide BaseConsistent, PurgeCandidates;
    forall d | d in u.documents && u.documents[d].currentVersion.Some?
      ensures exists s :: s in u.sections && u.sections[s].versionId == u.documents[d].currentVersion.value
    {
      var s :| s in t.sections && t.sections[s].versionId == t.documents[d].currentVersion.value;
      assert s in u.sections && u.sections[s] == t.sections[s];
    }
  }

  lemma TouchKeepsComplete(t: Tables, owned: map<nat, OwnerToken>, d: nat, observation: Option<Observation>, now: int)
    requires NothingMissing(t)
    ensures NothingMissing(TouchDocument(t, owned, d, observation, now).tables)
  {
    hide Observe, NothingMissing, Projection;
    if d in t.documents {
      var touched := t.(documents := t.documents[d := t.documents[d].(lastSeenAt := now)]);
      FailedObservation(t, touched, owned, d, observation, now);
      var observed := Observe(t, touched, owned, d, observation, now);
      if observed.error.None? {
        FinishedTables(t, touched, owned, d, observation, now, t.documents, d);
        TouchedComplete(t, Reindexed(observed.tables), d, now);
      }
    }
  }

  lemma TouchedComplete(t: Tables, u: Tables, d: nat, now: int)
    requires NothingMissing(t) && d in t.documents && u.sections == t.sections
    requires u.documents == t.documents[d := t.documents[d].(lastSeenAt := now)]
    ensures NothingMissing(u)
  {
  }

  lemma RecordKeepsComplete(t: Tables, owned: map<nat, OwnerToken>, d: nat, observation: Observation, now: int)
    requires NothingMissing(t)
    ensures NothingMissing(RecordObservation(t, owned, d, observation, now).tables)
  {
    hide Observe;
    FailedObservation(t, t, owned, d, Some(observation), now);
    if d in t.documents && Observe(t, t, owned, d, Some(observation), now).error.None? {
      FinishedTables(t, t, owned, d, Some(observation), now, t.documents, d);
    }
  }

  lemma OtherStepsKeepRows(t: Tables, owned: map<nat, OwnerToken>, op: Op)
    requires op.AddSourceOp? || op.UpdateSourceOp? || op.AddVersionOp? || op.RebuildOp? || op.StartOp? || op.CompleteOp? || op.RecoverOp?
    ensures Apply(t, owned, op).tables.documents == t.documents && Apply(t, owned, op).tables.sections == t.sections
  {
    hide Projection, AddedVersion, NextRowId, UpsertDocument, Commit, TouchDocument,
         RecordObservation, ReplaceSections, Purge;
  }

  // Over every operation and input: from a complete catalog, the result is complete if and only if
  // the operation failed or did not activate a document without a version.
  lemma StepCompleteExactly(t: Tables, owned: map<nat, OwnerToken>, op: Op)
    requires BaseConsistent(t) && NothingMissing(t)
    ensures NothingMissing(Apply(t, owned, op).tables) <==> (Apply(t, owned, op).error.Some? || !ActivatesUnversioned(t, op))
  {
    hide BaseConsistent, UpsertDocument, Commit, TouchDocument, RecordObservation, ReplaceSections, Purge;
    match op
    case UpsertOp(document, observation, now, observedAt) =>
      BaseParts(t);
      UpsertCompleteExactly(t, owned, document, observation, now, observedAt);
    case CommitOp(revision, observation, times) => CommitCompleteExactly(t, owned, revision, observation, times);
    case TouchOp(d, observation, now) => TouchKeepsComplete(t, owned, d, observation, now);
    case RecordOp(d, o, now) => RecordKeepsComplete(t, owned, d, o, now);
    case ReplaceSectionsOp(v, sections, now) =>
      BaseParts(t);
      ReplaceSectionsKeepsComplete(t, owned, v, sections, now);
    case PurgeOp(scope, keep) => PurgeKeepsComplete(t, scope, keep);
    case _ => OtherStepsKeepRows(t, owned, op);
  }

  /*** Histories ***/

  // The shared tables, and for each store the tokens it holds.
  datatype State = State(tables: Tables, owned: map<nat, map<nat, OwnerToken>>)

  datatype Event = Event(store: nat, op: Op)

  function TokensOf(st: State, store: nat): map<nat, OwnerToken> {
    if store in st.owned then st.owned[store] else map[]
  }

  ghost function Happen(st: State, e: Event): State {
    var out := Apply(st.tables, TokensOf(st, e.store), e.op);
    State(out.tables, st.owned[e.store := out.owned])
  }

  ghost predicate Succeeds(st: State, e: Event) {
    Apply(st.tables, TokensOf(st, e.store), e.op).error.None?
  }

  ghost function After(st: State, events: seq<Event>): State
    decreases |events|
  {
    if events == [] then st else After(Happen(st, events[0]), events[1..])
  }

  // The index agrees with a rebuild now and after each event.
  ghost predicate AlwaysAgrees(st: State, events: seq<Event>)
    decreases |events|
  {
    IndexAgrees(st.tables) && (events != [] ==> AlwaysAgrees(Happen(st, events[0]), events[1..]))
  }

  ghost predicate NeverFallsShort(st: State, events: seq<Event>)
    decreases |events|
  {
    events != [] ==>
      && (Succeeds(st, events[0]) ==> !FallsShort(st.tables, events[0].op))
      && NeverFallsShort(Happen(st, events[0]), events[1..])
  }

  // Base consistency survives every history; the index agrees throughout exactly when no
  // successful event takes one of the branches that fall short.
  lemma {:induction false} HistoriesAgreeExactly(st: State, events: seq<Event>)
    requires CatalogConsistent(st.tables)
    ensures AlwaysAgrees(st, events) <==> NeverFallsShort(st, events)
    decreases |events|
  {
    hide BaseConsistent, IndexAgrees, FallsShort, Apply;
    if events != [] {
      var next := Happen(st, events[0]);
      StepKeepsBase(st.tables, TokensOf(st, events[0].store), events[0].op);
      StepAgreesExactly(st.tables, TokensOf(st, events[0].store), events[0].op);
      if IndexAgrees(next.tables) {
        HistoriesAgreeExactly(next, events[1..]);
      }
    }
  }

  lemma ObservationKeepsEnded(t: Tables, x: Tables, owned: map<nat, OwnerToken>, d: nat, observation: Option<Observation>,
                              at: int, r: nat)
    requires x.runs == t.runs && r in t.runs && !IsLive(t.runs[r])
    ensures var u := Observe(t, x, owned, d, observation, at).tables; r in u.runs && u.runs[r] == t.runs[r]
  {
  }

  lemma OtherStepsKeepEnded(t: Tables, owned: map<nat, OwnerToken>, op: Op, r: nat)
    requires r in t.runs && !IsLive(t.runs[r]) && !op.UpsertOp? && !op.CommitOp? && !op.TouchOp? && !op.RecordOp?
    ensures var u := Apply(t, owned, op).tables; r in u.runs && u.runs[r] == t.runs[r]
  {
    hide Projection, ReplacedSections, AddedVersion, PurgeCandidates;
  }

  lemma TouchKeepsEnded(t: Tables, owned: map<nat, OwnerToken>, d: nat, o: Option<Observation>, now: int, r: nat)
    requires r in t.runs && !IsLive(t.runs[r])
    ensures var u := TouchDocument(t, owned, d, o, now).tables; r in u.runs && u.runs[r] == t.runs[r]
  {
    hide Observe, Projection;
    if d in t.documents {
      ObservationKeepsEnded(t, t.(documents := t.documents[d := t.documents[d].(lastSeenAt := now)]), owned, d, o, now, r);
    }
  }

  lemma UpsertKeepsEnded(t: Tables, owned: map<nat, OwnerToken>, input: DocumentInput, o: Option<Observation>, now: int,
                         observedAt: int, r: nat)
    requires r in t.runs && !IsLive(t.runs[r])
    ensures var u := UpsertDocument(t, owned, input, o, now, observedAt).tables; r in u.runs && u.runs[r] == t.runs[r]
  {
    hide Observe, UpsertDocumentRows, ResolvedDocument, Projection;
    var rows := UpsertDocumentRows(t, input, now);
    if rows.Ok? {
      ObservationKeepsEnded(t, t.(documents := rows.value.documents), owned, ResolvedDocument(rows.value, input), o, observedAt, r);
    }
  }

  lemma StepKeepsEnded(t: Tables, owned: map<nat, OwnerToken>, op: Op, r: nat)
    requires r in t.runs && !IsLive(t.runs[r])
    ensures var u := Apply(t, owned, op).tables; r in u.runs && u.runs[r] == t.runs[r]
  {
    hide Observe, UpsertDocument, Commit, TouchDocument, Projection;
    match op
    case UpsertOp(document, o, now, observedAt) => UpsertKeepsEnded(t, owned, document, o, now, observedAt, r);
    case CommitOp(revision, o, times) => CommitKeepsEnded(t, owned, revision, o, times, r);
    case TouchOp(d, o, now) => TouchKeepsEnded(t, owned, d, o, now, r);
    case RecordOp(d, o, now) => ObservationKeepsEnded(t, t, owned, d, Some(o), now, r);
    case _ => OtherStepsKeepEnded(t, owned, op, r);
  }

  lemma CommitKeepsEnded(t: Tables, owned: map<nat, OwnerToken>, revision: RevisionInput, o: Option<Observation>,
                         times: CommitTimes, r: nat)
    requires r in t.runs && !IsLive(t.runs[r])
    ensures var u := Commit(t, owned, revision, o, times).tables; r in u.runs && u.runs[r] == t.runs[r]
  {
    hide Observe, UpsertDocumentRows, ResolvedDocument, Projection;
    var rows := UpsertDocumentRows(t, revision.document, times.document);
    if rows.Ok? {
      var d := ResolvedDocument(rows.value, revision.document);
      var written := RevisionRows(t, rows.value.documents, d, revision, times);
      if written.Ok? {
        ObservationKeepsEnded(t, written.value, owned, d, o, times.pointer, r);
      }
    }
  }

  // Once a run has ended, no history revives it, and a document write on its behalf, by any store
  // with any tokens, changes no table.
  lemma {:induction false} EndedRunsAreFenced(st: State, events: seq<Event>, r: nat, owned: map<nat, OwnerToken>, op: Op)
    requires r in st.tables.runs && !IsLive(st.tables.runs[r])
    requires ObservationOf(op).Some? && ObservationOf(op).value.runId == r
    ensures r in After(st, events).tables.runs && After(st, events).tables.runs[r] == st.tables.runs[r]
    ensures Apply(After(st, events).tables, owned, op).error.Some?
    ensures Apply(After(st, events).tables, owned, op).tables == After(st, events).tables
    decreases |events|
  {
    hide Apply;
    if events == [] {
      StaleWritersChangeNothing(st.tables, owned, op);
    } else {
      StepKeepsEnded(st.tables, TokensOf(st, events[0].store), events[0].op, r);
      EndedRunsAreFenced(Happen(st, events[0]), events[1..], r, owned, op);
    }
  }

  /*** Histories of the calls that synchronisation and ingestion make ***/

  // Every public id is computed from the source and the stable key.
  ghost predicate Derived(t: Tables, idOf: (nat, string) -> string) {
    forall d | d in t.documents :: t.documents[d].publicId == idOf(t.documents[d].sourceId, t.documents[d].stableKey)
  }

  predicate DerivedInput(input: DocumentInput, idOf: (nat, string) -> string) {
    input.publicId == idOf(input.sourceId, input.stableKey)
  }

  // Commits and upserts with derived ids, no upsert as ACTIVE, no replacement of a version's sections.
  predicate ServiceCall(op: Op, idOf: (nat, string) -> string) {
    match op
    case UpsertOp(document, _, _, _) => DerivedInput(document, idOf) && !document.status.Active?
    case CommitOp(revision, _, _) => DerivedInput(revision.document, idOf)
    case ReplaceSectionsOp(_, _, _) => false
    case _ => true
  }

  lemma DerivedIsNeverMisaddressed(t: Tables, input: DocumentInput, idOf: (nat, string) -> string)
    requires UniqueDocuments(t.documents) && Derived(t, idOf) && DerivedInput(input, idOf)
    ensures !exists a, b :: Misaddressed(t, input, a, b)
  {
  }

  lemma ServiceCallsKeepAgreement(t: Tables, op: Op, idOf: (nat, string) -> string)
    requires UniqueDocuments(t.documents) && Derived(t, idOf) && ServiceCall(op, idOf)
    ensures !FallsShort(t, op) && !ActivatesUnversioned(t, op)
  {
    if op.UpsertOp? {
      DerivedIsNeverMisaddressed(t, op.document, idOf);
    } else if op.CommitOp? {
      DerivedIsNeverMisaddressed(t, op.revision.document, idOf);
    }
  }

  lemma UpsertKeepsDerived(t: Tables, input: DocumentInput, now: int, idOf: (nat, string) -> string)
    requires ReferencesResolve(t) && UniqueDocuments(t.documents) && Derived(t, idOf) && DerivedInput(input, idOf)
    requires UpsertDocumentRows(t, input, now).Ok?
    ensures Derived(t.(documents := UpsertDocumentRows(t, input, now).value.documents), idOf)
  {
    Addressing(t, input, now);
  }

  lemma UpsertDocumentKeepsDerived(t: Tables, owned: map<nat, OwnerToken>, input: DocumentInput, observation: Option<Observation>,
                                   now: int, observedAt: int, idOf: (nat, string) -> string)
    requires ReferencesResolve(t) && UniqueDocuments(t.documents) && Derived(t, idOf) && DerivedInput(input, idOf)
    ensures Derived(UpsertDocument(t, owned, input, observation, now, observedAt).tables, idOf)
  {
    hide UpsertDocumentRows, ResolvedDocument, Observe, RefreshedFor, ReferencesResolve, UniqueDocuments;
    var rows := UpsertDocumentRows(t, input, now);
    if rows.Ok? {
      var x := t.(documents := rows.value.documents);
      UpsertKeepsDerived(t, input, now, idOf);
      FinishedDerived(t, x, owned, ResolvedDocument(rows.value, input), observation, observedAt, t.documents, rows.value.written, idOf);
    }
  }

  lemma TouchKeepsDerived(t: Tables, owned: map<nat, OwnerToken>, d: nat, observation: Option<Observation>, now: int,
                          idOf: (nat, string) -> string)
    requires Derived(t, idOf)
    ensures Derived(TouchDocument(t, owned, d, observation, now).tables, idOf)
  {
    hide Observe, Projection;
    if d in t.documents {
      var x := t.(documents := t.documents[d := t.documents[d].(lastSeenAt := now)]);
      FinishedDerived(t, x, owned, d, observation, now, t.documents, d, idOf);
    }
  }

  lemma StepKeepsDerived(t: Tables, owned: map<nat, OwnerToken>, op: Op, idOf: (nat, string) -> string)
    requires BaseConsistent(t) && Derived(t, idOf) && ServiceCall(op, idOf)
    ensures Derived(Apply(t, owned, op).tables, idOf)
  {
    hide BaseConsistent, ReferencesResolve, UniqueDocuments, UpsertDocument, Commit, TouchDocument, Observe, Projection;
    BaseParts(t);
    match op
    case UpsertOp(document, observation, now, observedAt) =>
      UpsertDocumentKeepsDerived(t, owned, document, observation, now, observedAt, idOf);
    case CommitOp(revision, observation, times) => CommitKeepsDerived(t, owned, revision, observation, times, idOf);
    case TouchOp(d, observation, now) => TouchKeepsDerived(t, owned, d, observation, now, idOf);
    case RecordOp(d, o, now) => FinishedDerived(t, t, owned, d, Some(o), now, t.documents, d, idOf);
    case PurgeOp(_, _) =>
    case _ => OtherStepsKeepRows(t, owned, op);
  }

  lemma FinishedDerived(t: Tables, x: Tables, owned: map<nat, OwnerToken>, d: nat, observation: Option<Observation>, at: int,
                        documents: map<nat, Document>, written: nat, idOf: (nat, string) -> string)
    requires Derived(t, idOf) && Derived(x, idOf)
    ensures var out := Observe(t, x, owned, d, observation, at);
            && Derived(out.tables, idOf) && Derived(Reindexed(out.tables), idOf)
            && Derived(RefreshedFor(out.tables, documents, written, d), idOf)
  {
    hide Observe, RefreshedFor;
    FailedObservation(t, x, owned, d, observation, at);
    if Observe(t, x, owned, d, observation, at).error.None? {
      FinishedTables(t, x, owned, d, observation, at, documents, written);
    } else {
      RefreshedRows(t, documents, written, d);
    }
  }

  lemma RefreshedRows(u: Tables, documents: map<nat, Document>, written: nat, d: nat)
    ensures RefreshedFor(u, documents, written, d) == u.(index := RefreshedFor(u, documents, written, d).index)
  {
  }

  lemma CommitKeepsDerived(t: Tables, owned: map<nat, OwnerToken>, revision: RevisionInput, observation: Option<Observation>,
                           times: CommitTimes, idOf: (nat, string) -> string)
    requires ReferencesResolve(t) && UniqueDocuments(t.documents) && Derived(t, idOf) && DerivedInput(revision.document, idOf)
    ensures Derived(Commit(t, owned, revision, observation, times).tables, idOf)
  {
    hide UpsertDocumentRows, ResolvedDocument, Observe, RefreshedFor, ReferencesResolve, UniqueDocuments, RevisionRows, Derived;
    var rows := UpsertDocumentRows(t, revision.document, times.document);
    if rows.Ok? {
      var d := ResolvedDocument(rows.value, revision.document);
      UpsertKeepsDerived(t, revision.document, times.document, idOf);
      var r := RevisionRows(t, rows.value.documents, d, revision, times);
      if r.Ok? {
        RevisionKeepsDerived(t, rows.value.documents, d, revision, times, idOf);
        FinishedDerived(t, r.value, owned, d, observation, times.pointer, t.documents, rows.value.written, idOf);
      }
    }
  }

  lemma RevisionKeepsDerived(t: Tables, documents: map<nat, Document>, d: nat, revision: RevisionInput, times: CommitTimes,
                             idOf: (nat, string) -> string)
    requires Derived(t.(documents := documents), idOf) && RevisionRows(t, documents, d, revision, times).Ok?
    ensures Derived(RevisionRows(t, documents, d, revision, times).value, idOf)
  {
    hide ReplacedSections, UpsertVersionRow, ClearCurrentVersions;
  }

  // From a consistent and complete catalog, any history of service calls by any stores ends in one:
  // a rebuild changes nothing, and the integrity check reports nothing.
  lemma {:induction false} ServiceHistoriesStaySound(st: State, events: seq<Event>, idOf: (nat, string) -> string,
                                                    tokenize: string -> seq<string>)
    requires CatalogConsistent(st.tables) && LedgerResolves(st.tables) && NothingMissing(st.tables) && Derived(st.tables, idOf)
    requires forall i :: 0 <= i < |events| ==> ServiceCall(events[i].op, idOf)
    ensures CatalogConsistent(After(st, events).tables) && NothingMissing(After(st, events).tables)
    ensures Reindexed(After(st, events).tables) == After(st, events).tables
    ensures Sound(After(st, events).tables, tokenize)
    decreases |events|
  {
    hide BaseConsistent, LedgerResolves, NothingMissing, Derived, FallsShort, ActivatesUnversioned, Apply;
    if events == [] {
      ConsistentIsSound(st.tables, tokenize);
    } else {
      var owned, op := TokensOf(st, events[0].store), events[0].op;
      BaseParts(st.tables);
      ServiceCallsKeepAgreement(st.tables, op, idOf);
      StepKeepsBase(st.tables, owned, op);
      StepAgreesExactly(st.tables, owned, op);
      StepCompleteExactly(st.tables, owned, op);
      StepKeepsDerived(st.tables, owned, op, idOf);
      StepKeepsLedger(st.tables, owned, op);
      ServiceHistoriesStaySound(Happen(st, events[0]), events[1..], idOf, tokenize);
    }
  }

  lemma ConsistentIsSound(t: Tables, tokenize: string -> seq<string>)
    requires CatalogConsistent(t) && LedgerResolves(t) && NothingMissing(t)
    ensures Sound(t, tokenize)
  {
  }
}
