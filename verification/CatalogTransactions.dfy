// The catalog's transactions in their simplest form: change the base tables, then rebuild the
// whole index. The revision writer must reach the same tables with its incremental statements.
module CatalogTransactions {
  import opened Prelude
  import opened CatalogTables
  import opened CatalogObservations

  // Times read from the clock during one commit.
  datatype CommitTimes = CommitTimes(document: int, version: int, pointer: int)

  function Reindexed(t: Tables): Tables {
    t.(index := Projection(t))
  }

  function Succeeded(t: Tables, owned: map<nat, OwnerToken>): Outcome {
    Outcome(t, owned, None)
  }

  /*** Table changes ***/

  datatype DocumentWrite = DocumentWrite(documents: map<nat, Document>, written: nat)

  // INSERT ... ON CONFLICT(source_id, stable_key) DO UPDATE.
  ghost function UpsertDocumentRows(t: Tables, input: DocumentInput, now: int): Result<DocumentWrite> {
    var matches := DocumentsByKey(t.documents, input.sourceId, input.stableKey);
    if matches != {} then
      var a :| a in matches;
      if UrlConflicts(t.documents, input, {a}) != {} then Err(ConstraintViolation)
      else Ok(DocumentWrite(t.documents[a := UpdatedDocument(t.documents[a], input, now)], a))
    else if input.sourceId !in t.sources || DocumentsByPublicId(t.documents, input.publicId) != {}
            || UrlConflicts(t.documents, input, {}) != {} then Err(ConstraintViolation)
    else
      var d := NextRowId(t.documents.Keys);
      Ok(DocumentWrite(t.documents[d := NewDocument(input, now)], d))
  }

  // The row the rest of the transaction works on: found by public id, or else by key.
  ghost function ResolvedDocument(write: DocumentWrite, input: DocumentInput): nat {
    var named := DocumentsByPublicId(write.documents, input.publicId);
    if named != {} then var d :| d in named; d else write.written
  }

  datatype VersionWrite = VersionWrite(versions: map<nat, Version>, written: nat)

  // INSERT ... ON CONFLICT(document_id, content_hash) DO UPDATE.
  ghost function UpsertVersionRow(versions: map<nat, Version>, input: VersionInput, fetchedAt: int,
                                  pendingCurrent: bool): VersionWrite
  {
    var matches := VersionsByHash(versions, input.documentId, input.contentHash);
    var v := if matches != {} then var m :| m in matches; m else NextRowId(versions.Keys);
    VersionWrite(versions[v := VersionRow(input, fetchedAt, pendingCurrent)], v)
  }

  // The rows of an insert loop whose first row gets id `first`.
  function NumberedSections(first: nat, versionId: nat, inputs: seq<SectionInput>): map<nat, Section>
    decreases |inputs|
  {
    if inputs == [] then map[]
    else
      var last := |inputs| - 1;
      NumberedSections(first, versionId, inputs[..last])[first + last := SectionRow(versionId, inputs[last])]
  }

  lemma {:induction false} NumberedRows(first: nat, versionId: nat, inputs: seq<SectionInput>)
    ensures forall s :: s in NumberedSections(first, versionId, inputs) <==> first <= s < first + |inputs|
    ensures forall s :: s in NumberedSections(first, versionId, inputs) ==>
              NumberedSections(first, versionId, inputs)[s] == SectionRow(versionId, inputs[s - first])
    decreases |inputs|
  {
    if inputs != [] {
      var last := |inputs| - 1;
      NumberedRows(first, versionId, inputs[..last]);
      assert NumberedSections(first, versionId, inputs)
             == NumberedSections(first, versionId, inputs[..last])[first + last := SectionRow(versionId, inputs[last])];
    }
  }

  ghost function ReplacedSections(sections: map<nat, Section>, versionId: nat, inputs: seq<SectionInput>): Result<map<nat, Section>> {
    var kept := SectionsWithout(sections, versionId);
    if |inputs| > MAX_PERSISTED_DOCUMENT_SECTIONS then Err(SectionLimitExceeded)
    else if !DistinctOrdinals(inputs) then Err(ConstraintViolation)
    else Ok(kept + NumberedSections(NextRowId(kept.Keys), versionId, inputs))
  }

  function PointedTo(documents: map<nat, Document>, documentId: nat, versionId: nat, now: int): map<nat, Document> {
    if documentId in documents
    then documents[documentId := documents[documentId].(currentVersion := Some(versionId), updatedAt := now)]
    else documents
  }

  /*** Transactions ***/

  // The index is refreshed for one document only. When the row that changed is another one
  // (its key matched, but the public id named a different document), that row's text stays as it
  // was: the index is what a rebuild would give had the row not been touched.
  function AsRefreshed(t: Tables, before: map<nat, Document>, written: nat, refreshed: nat): Tables {
    if written != refreshed && written in before then t.(documents := t.documents[written := before[written]]) else t
  }

  function RefreshedFor(t: Tables, before: map<nat, Document>, written: nat, refreshed: nat): Tables {
    t.(index := Projection(AsRefreshed(t, before, written, refreshed)))
  }

  ghost function UpsertDocument(t: Tables, owned: map<nat, OwnerToken>, input: DocumentInput,
                                observation: Option<Observation>, now: int, observedAt: int): Outcome
  {
    match UpsertDocumentRows(t, input, now)
    case Err(e) => RolledBack(t, owned, e)
    case Ok(write) =>
      var d := ResolvedDocument(write, input);
      var observed := Observe(t, t.(documents := write.documents), owned, d, observation, observedAt);
      if observed.error.Some? then observed
      else Succeeded(RefreshedFor(observed.tables, t.documents, write.written, d), observed.owned)
  }

  ghost function RevisionVersion(versions: map<nat, Version>, d: nat, revision: RevisionInput, times: CommitTimes): nat {
    UpsertVersionRow(ClearCurrentVersions(versions, d), revision.version.(documentId := d, isCurrent := true),
                     times.version, false).written
  }

  // The base tables once a revision of document d is stored and made current.
  ghost function RevisionRows(t: Tables, documents: map<nat, Document>, d: nat, revision: RevisionInput,
                              times: CommitTimes): Result<Tables>
  {
    var version := UpsertVersionRow(ClearCurrentVersions(t.versions, d),
                                    revision.version.(documentId := d, isCurrent := true), times.version, false);
    match ReplacedSections(t.sections, version.written, revision.sections)
    case Err(e) => Err(e)
    case Ok(sections) =>
      Ok(t.(documents := PointedTo(documents, d, version.written, times.pointer),
            versions := version.versions, sections := sections))
  }

  ghost function Commit(t: Tables, owned: map<nat, OwnerToken>, revision: RevisionInput,
                        observation: Option<Observation>, times: CommitTimes): Outcome
  {
    if revision.sections == [] then RolledBack(t, owned, RevisionRequiresSections)
    else
      match UpsertDocumentRows(t, revision.document, times.document)
      case Err(e) => RolledBack(t, owned, e)
      case Ok(write) =>
        var d := ResolvedDocument(write, revision.document);
        match RevisionRows(t, write.documents, d, revision, times)
        case Err(e) => RolledBack(t, owned, e)
        case Ok(committed) =>
          var observed := Observe(t, committed, owned, d, observation, times.pointer);
          if observed.error.Some? then observed
          else if DocumentsByPublicId(committed.documents, revision.document.publicId) == {}
          then RolledBack(t, observed.owned, CommitFailed)
          else Succeeded(RefreshedFor(observed.tables, t.documents, write.written, d), observed.owned)
  }

  function TouchDocument(t: Tables, owned: map<nat, OwnerToken>, documentId: nat,
                         observation: Option<Observation>, now: int): Outcome
  {
    if documentId !in t.documents then RolledBack(t, owned, DocumentNotFound)
    else
      var touched := t.(documents := t.documents[documentId := t.documents[documentId].(lastSeenAt := now)]);
      var observed := Observe(t, touched, owned, documentId, observation, now);
      if observed.error.Some? then observed
      else Succeeded(Reindexed(observed.tables), observed.owned)
  }

  function RecordObservation(t: Tables, owned: map<nat, OwnerToken>, documentId: nat,
                             observation: Observation, now: int): Outcome
  {
    if documentId !in t.documents then RolledBack(t, owned, DocumentNotFound)
    else
      var observed := Observe(t, t, owned, documentId, Some(observation), now);
      if observed.error.Some? then observed
      else Succeeded(Reindexed(observed.tables), observed.owned)
  }

  // A version that becomes current only once its sections arrive is inserted as pending; one that
  // is current already keeps its flag.
  ghost function AddedVersion(versions: map<nat, Version>, input: VersionInput, now: int): VersionWrite {
    var keepsFlag := exists v :: v in VersionsByHash(versions, input.documentId, input.contentHash) && versions[v].isCurrent;
    UpsertVersionRow(versions, input.(isCurrent := keepsFlag), now, input.isCurrent && !keepsFlag)
  }

  ghost function AddVersion(t: Tables, owned: map<nat, OwnerToken>, input: VersionInput, now: int): Outcome {
    if input.documentId !in t.documents then RolledBack(t, owned, ConstraintViolation)
    else Succeeded(Reindexed(t.(versions := AddedVersion(t.versions, input, now).versions)), owned)
  }

  // Index rows whose section no longer exists: deleting by document joins on the new sections,
  // so replacing the sections of the version already current leaves these behind.
  function StrandedRows(t: Tables, after: Tables): map<nat, IndexRow> {
    map s | s in t.index && s !in after.sections :: t.index[s]
  }

  function PromotedVersions(versions: map<nat, Version>, v: nat): map<nat, Version>
    requires v in versions
  {
    var cleared := ClearCurrentVersions(versions, versions[v].documentId);
    cleared[v := cleared[v].(isCurrent := true, pendingCurrent := false)]
  }

  ghost function ReplaceSections(t: Tables, owned: map<nat, OwnerToken>, versionId: nat,
                                 inputs: seq<SectionInput>, now: int): Outcome
  {
    if versionId !in t.versions then RolledBack(t, owned, VersionNotFound)
    else
      var version := t.versions[versionId];
      if (version.pendingCurrent || version.isCurrent) && inputs == [] then RolledBack(t, owned, RevisionRequiresSections)
      else
        match ReplacedSections(t.sections, versionId, inputs)
        case Err(e) => RolledBack(t, owned, e)
        case Ok(sections) =>
          var replaced := t.(sections := sections);
          if version.pendingCurrent then
            Succeeded(Reindexed(replaced.(versions := PromotedVersions(t.versions, versionId),
                                          documents := PointedTo(t.documents, version.documentId, versionId, now))), owned)
          else if version.isCurrent then
            Succeeded(replaced.(index := Projection(replaced) + StrandedRows(t, replaced)), owned)
          else Succeeded(Reindexed(replaced), owned)
  }

  ghost function AddSource(t: Tables, owned: map<nat, OwnerToken>, input: SourceInput, now: int): Outcome {
    if exists s :: s in t.sources && t.sources[s].key == input.key then RolledBack(t, owned, ConstraintViolation)
    else
      var row := Source(input.key, input.displayName, input.enabled, now, now);
      Succeeded(Reindexed(t.(sources := t.sources[NextRowId(t.sources.Keys) := row])), owned)
  }

  ghost function UpdateSource(t: Tables, owned: map<nat, OwnerToken>, input: SourceInput, now: int): Outcome {
    var matches := set s | s in t.sources && t.sources[s].key == input.key;
    if matches == {} then RolledBack(t, owned, SourceNotFound)
    else
      var s :| s in matches;
      var row := t.sources[s].(displayName := input.displayName, enabled := input.enabled, updatedAt := now);
      Succeeded(Reindexed(t.(sources := t.sources[s := row])), owned)
  }
}
