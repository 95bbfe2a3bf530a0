// When the catalog tables are consistent, and when the full-text index agrees with them.
module CatalogInvariant {
  import opened Prelude
  import opened CatalogTables

  predicate ReferencesResolve(t: Tables) {
    && (forall d :: d in t.documents ==> t.documents[d].sourceId in t.sources)
    && (forall v :: v in t.versions ==> t.versions[v].documentId in t.documents)
    && (forall s :: s in t.sections ==> t.sections[s].versionId in t.versions)
  }

  // Aliases, staleness events and runs name rows that exist.
  predicate LedgerResolves(t: Tables) {
    && (forall k :: k in t.aliases ==> k.documentId in t.documents)
    && (forall r :: r in t.runs && t.runs[r].sourceId.Some? ==> t.runs[r].sourceId.value in t.sources)
    && (forall i :: 0 <= i < |t.events| ==> t.events[i].documentId in t.documents && t.events[i].runId in t.runs)
  }

  // The unique indexes of the schema.
  predicate UniqueSources(sources: map<nat, Source>) {
    forall a, b | a in sources && b in sources :: sources[a].key == sources[b].key ==> a == b
  }

  predicate UniqueDocuments(documents: map<nat, Document>) {
    && (forall a, b | a in documents && b in documents ::
          documents[a].publicId == documents[b].publicId ==> a == b)
    && (forall a, b | a in documents && b in documents ::
          HasKey(documents[a], documents[b].sourceId, documents[b].stableKey) ==> a == b)
    && (forall a, b | a in documents && b in documents ::
          (documents[a].sourceId == documents[b].sourceId
           && documents[a].canonicalUrl == documents[b].canonicalUrl) ==> a == b)
  }

  predicate UniqueVersions(versions: map<nat, Version>) {
    forall a, b | a in versions && b in versions ::
      (versions[a].documentId == versions[b].documentId
       && versions[a].contentHash == versions[b].contentHash) ==> a == b
  }

  // A document's pointer names one of its own versions, that version is flagged, and no other is.
  predicate PointersMatchFlags(documents: map<nat, Document>, versions: map<nat, Version>) {
    && (forall d | d in documents && documents[d].currentVersion.Some? ::
          var v := documents[d].currentVersion.value;
          v in versions && versions[v].documentId == d && versions[v].isCurrent)
    && (forall v | v in versions && versions[v].isCurrent ::
          && versions[v].documentId in documents
          && documents[versions[v].documentId].currentVersion == Some(v)
          && !versions[v].pendingCurrent)
  }

  predicate BaseConsistent(t: Tables) {
    && ReferencesResolve(t)
    && UniqueSources(t.sources)
    && UniqueDocuments(t.documents)
    && UniqueVersions(t.versions)
    && PointersMatchFlags(t.documents, t.versions)
  }

  lemma BaseParts(t: Tables)
    requires BaseConsistent(t)
    ensures ReferencesResolve(t) && UniqueSources(t.sources) && UniqueDocuments(t.documents) && UniqueVersions(t.versions)
    ensures PointersMatchFlags(t.documents, t.versions)
  {
  }

  // The incrementally kept index equals what a rebuild would produce, row ids and payload.
  predicate IndexAgrees(t: Tables) {
    t.index == Projection(t)
  }

  predicate CatalogConsistent(t: Tables) {
    BaseConsistent(t) && IndexAgrees(t)
  }

  // A current version with no sections, or an active document with no version, is reported by
  // the integrity check even when the index agrees.
  predicate NothingMissing(t: Tables) {
    && (forall d :: d in t.documents && t.documents[d].currentVersion.Some? ==>
          exists s :: s in t.sections && t.sections[s].versionId == t.documents[d].currentVersion.value)
    && (forall d :: d in t.documents && t.documents[d].status.Active? ==> t.documents[d].currentVersion.Some?)
  }

  // Version tables that differ only in columns the invariants and the index do not read.
  predicate SameVersionShape(versions: map<nat, Version>, other: map<nat, Version>) {
    && versions.Keys == other.Keys
    && forall v | v in versions ::
         && versions[v].documentId == other[v].documentId
         && versions[v].contentHash == other[v].contentHash
         && versions[v].isCurrent == other[v].isCurrent
         && versions[v].pendingCurrent == other[v].pendingCurrent
  }

  lemma VersionShapeDecides(t: Tables, u: Tables)
    requires t.sources == u.sources && t.documents == u.documents && t.sections == u.sections
    requires SameVersionShape(t.versions, u.versions)
    ensures Projection(t) == Projection(u)
    ensures BaseConsistent(t) ==> BaseConsistent(u)
  {
    forall s | s in t.sections
      ensures SearchableSection(t, s) == SearchableSection(u, s)
      ensures SearchableSection(t, s) ==> IndexedText(t, s) == IndexedText(u, s)
    {
    }
  }

  // The tables the index is computed from.
  predicate SameCatalog(t: Tables, u: Tables) {
    t.sources == u.sources && t.documents == u.documents && t.versions == u.versions && t.sections == u.sections
  }

  lemma SameCatalogSameProjection(t: Tables, u: Tables)
    requires SameCatalog(t, u)
    ensures Projection(t) == Projection(u)
  {
    assert forall s :: s in t.sections ==> SearchableSection(t, s) == SearchableSection(u, s);
  }
}
