// Purging old versions: which ones the count query selects, and what the batched deletes leave.
module CatalogPurge {
  import opened Prelude
  import opened CatalogTables
  import opened CatalogInvariant
  import opened CatalogTransactions
  import opened CatalogIndexing
  import opened CatalogStores

  const SQLITE_ID_BATCH_SIZE := 400

  datatype PurgeResult = PurgeResult(scannedDocuments: nat, candidateVersions: nat, candidateSections: nat,
                                     purgedVersions: nat, purgedSections: nat)

  predicate Prunable(version: Version) {
    !version.isCurrent && !version.pendingCurrent
  }

  predicate InScope(t: Tables, d: nat, scope: Option<string>) {
    && d in t.documents && t.documents[d].sourceId in t.sources
    && (scope.None? || t.sources[t.documents[d].sourceId].key == scope.value)
  }

  function ScannedDocuments(t: Tables, scope: Option<string>): set<nat> {
    set d | d in t.documents && InScope(t, d, scope)
  }

  predicate IsNewer(versions: map<nat, Version>, a: nat, b: nat)
    requires a in versions && b in versions
  {
    versions[a].fetchedAt > versions[b].fetchedAt || (versions[a].fetchedAt == versions[b].fetchedAt && a > b)
  }

  // A document's versions that are neither current nor pending.
  function PrunableOf(versions: map<nat, Version>, d: nat): set<nat> {
    set v | v in versions && versions[v].documentId == d && Prunable(versions[v])
  }

  function NewerIn(versions: map<nat, Version>, among: set<nat>, v: nat): set<nat>
    requires among <= versions.Keys && v in versions
  {
    set n | n in among && IsNewer(versions, n, v)
  }

  function PurgeCandidates(t: Tables, scope: Option<string>, keep: nat): set<nat> {
    set v | v in t.versions && Prunable(t.versions[v]) && InScope(t, t.versions[v].documentId, scope)
            && |NewerIn(t.versions, PrunableOf(t.versions, t.versions[v].documentId), v)| >= keep
  }

  function SectionsOfVersions(sections: map<nat, Section>, versionIds: set<nat>): set<nat> {
    set s | s in sections && sections[s].versionId in versionIds
  }

  // The tables without the given versions and their sections.
  function WithoutVersions(t: Tables, versionIds: set<nat>): Tables {
    Reindexed(t.(versions := t.versions - versionIds, sections := t.sections - SectionsOfVersions(t.sections, versionIds)))
  }

  function Purge(t: Tables, scope: Option<string>, keep: nat): Tables {
    WithoutVersions(t, PurgeCandidates(t, scope, keep))
  }

  /*** The newest are kept ***/

  lemma {:induction false} OldestExists(versions: map<nat, Version>, among: set<nat>) returns (m: nat)
    requires among != {} && among <= versions.Keys
    ensures m in among && forall v :: v in among && v != m ==> IsNewer(versions, v, m)
  {
    var k :| k in among;
    var rest := among - {k};
    if rest == {} {
      m := k;
      assert forall v :: v in among ==> v == k || v in rest;
    } else {
      var r := OldestExists(versions, rest);
      m := if IsNewer(versions, k, r) then r else k;
      assert forall v :: v in among ==> v == k || v in rest;
    }
  }

  function Kept(versions: map<nat, Version>, among: set<nat>, keep: nat): set<nat>
    requires among <= versions.Keys
  {
    set v | v in among && |NewerIn(versions, among, v)| < keep
  }

  // "Fewer than keep are newer" selects exactly the keep newest, or all when there are no more.
  lemma {:induction false} KeptCount(versions: map<nat, Version>, among: set<nat>, keep: nat)
    requires among <= versions.Keys
    ensures |Kept(versions, among, keep)| == if |among| < keep then |among| else keep
    decreases |among|
  {
    if among == {} {
      assert Kept(versions, among, keep) == {};
    } else {
      var m := OldestExists(versions, among);
      var rest := among - {m};
      KeptCount(versions, rest, keep);
      forall v | v in rest
        ensures NewerIn(versions, among, v) == NewerIn(versions, rest, v)
      {
        assert !IsNewer(versions, m, v);
      }
      assert NewerIn(versions, among, m) == rest;
      if |rest| < keep {
        assert Kept(versions, among, keep) == Kept(versions, rest, keep) + {m};
      } else {
        assert Kept(versions, among, keep) == Kept(versions, rest, keep);
      }
    }
  }

  lemma KeptAreNewer(versions: map<nat, Version>, among: set<nat>, keep: nat, a: nat, b: nat)
    requires among <= versions.Keys
    requires a in Kept(versions, among, keep) && b in among && b !in Kept(versions, among, keep)
    ensures IsNewer(versions, a, b)
  {
    if !IsNewer(versions, a, b) {
      assert a != b;
      SubsetSize(NewerIn(versions, among, b), NewerIn(versions, among, a));
    }
  }

  lemma {:induction false} SubsetSize(a: set<nat>, b: set<nat>)
    requires a <= b
    ensures |a| <= |b|
  {
    assert |b| == |b - a| + |a| by {
      assert b == (b - a) + a;
    }
  }

  lemma PrunableAfterPurge(t: Tables, scope: Option<string>, keep: nat, d: nat)
    ensures forall v :: v in t.versions && !Prunable(t.versions[v]) ==> v in Purge(t, scope, keep).versions
    ensures forall v :: v in Purge(t, scope, keep).versions ==> v in t.versions && Purge(t, scope, keep).versions[v] == t.versions[v]
    ensures !InScope(t, d, scope) ==> PrunableOf(Purge(t, scope, keep).versions, d) == PrunableOf(t.versions, d)
    ensures InScope(t, d, scope) ==>
              var before, after := PrunableOf(t.versions, d), PrunableOf(Purge(t, scope, keep).versions, d);
              && after <= before && |after| == (if |before| < keep then |before| else keep)
              && (forall a, b :: a in after && b in before - after ==> IsNewer(t.versions, a, b))
  {
    var before, after := PrunableOf(t.versions, d), PrunableOf(Purge(t, scope, keep).versions, d);
    if InScope(t, d, scope) {
      assert after == Kept(t.versions, before, keep);
      KeptCount(t.versions, before, keep);
      forall a, b | a in after && b in before - after
        ensures IsNewer(t.versions, a, b)
      {
        KeptAreNewer(t.versions, before, keep, a, b);
      }
    } else {
      assert after == before;
    }
  }

  // For every document in scope: its current and pending versions stay, together with exactly the
  // newest min(keep, n) of its n others. Other documents keep everything.
  lemma PurgeKeepsTheNewest(t: Tables, scope: Option<string>, keep: nat, d: nat)
    ensures var u := Purge(t, scope, keep);
            var before := set v | v in t.versions && t.versions[v].documentId == d && !t.versions[v].isCurrent && !t.versions[v].pendingCurrent;
            var after := before * u.versions.Keys;
            && (forall v :: v in t.versions && v !in u.versions ==> !t.versions[v].isCurrent && !t.versions[v].pendingCurrent)
            && (forall v :: v in u.versions ==> v in t.versions && u.versions[v] == t.versions[v])
            && (if d in t.documents && t.documents[d].sourceId in t.sources
                   && (scope == None || scope == Some(t.sources[t.documents[d].sourceId].key))
                then && |after| == (if |before| < keep then |before| else keep)
                     && (forall a, b :: a in after && b in before - after ==>
                           || t.versions[a].fetchedAt > t.versions[b].fetchedAt
                           || (t.versions[a].fetchedAt == t.versions[b].fetchedAt && a > b))
                else after == before)
  {
    hide Purge, InScope;
    PrunableAfterPurge(t, scope, keep, d);
    var u := Purge(t, scope, keep);
    var before := set v | v in t.versions && t.versions[v].documentId == d && !t.versions[v].isCurrent && !t.versions[v].pendingCurrent;
    assert before == PrunableOf(t.versions, d);
    assert before * u.versions.Keys == PrunableOf(u.versions, d);
    ScopeExactly(t, d, scope);
  }

  lemma ScopeExactly(t: Tables, d: nat, scope: Option<string>)
    ensures InScope(t, d, scope) <==>
              && d in t.documents && t.documents[d].sourceId in t.sources
              && (scope == None || scope == Some(t.sources[t.documents[d].sourceId].key))
  {
  }

  // With the versions go their sections, and no others.
  lemma PurgeTakesSections(t: Tables, scope: Option<string>, keep: nat, s: nat)
    ensures var u := Purge(t, scope, keep);
            && (s in u.sections <==> s in t.sections && !(t.sections[s].versionId in t.versions && t.sections[s].versionId !in u.versions))
            && (s in u.sections ==> u.sections[s] == t.sections[s])
  {
  }

  lemma SecondPurgeRemovesNothing(t: Tables, scope: Option<string>, keep: nat)
    ensures PurgeCandidates(Purge(t, scope, keep), scope, keep) == {}
  {
    var p := Purge(t, scope, keep);
    if v :| v in PurgeCandidates(p, scope, keep) {
      var d := p.versions[v].documentId;
      PrunableAfterPurge(t, scope, keep, d);
      var after := PrunableOf(p.versions, d);
      assert v !in NewerIn(p.versions, after, v) && v in after;
      SubsetSize(NewerIn(p.versions, after, v), after - {v});
    }
  }

  // Sections of versions that are neither current nor pending are outside the rebuilt index.
  lemma PurgedRow(t: Tables, versionIds: set<nat>, s: nat)
    requires ReferencesResolve(t)
    requires forall v | v in versionIds && v in t.versions :: Prunable(t.versions[v])
    ensures var purged := WithoutVersions(t, versionIds).index;
            && (s in purged <==> s in Projection(t))
            && (s in purged ==> purged[s] == Projection(t)[s] && s !in SectionsOfVersions(t.sections, versionIds))
  {
    var u := WithoutVersions(t, versionIds);
    if s in t.sections && t.sections[s].versionId !in versionIds {
      assert s in u.sections && u.sections[s] == t.sections[s];
    }
  }

  // Deleting the sections' own rows is all the index needs; rows astray elsewhere stay.
  lemma PurgeCarriesIndex(t: Tables, versionIds: set<nat>)
    requires ReferencesResolve(t)
    requires forall v | v in versionIds && v in t.versions :: Prunable(t.versions[v])
    ensures var gone := SectionsOfVersions(t.sections, versionIds);
            && WithoutVersions(t, versionIds).index == Projection(t)
            && t.index - gone == Carried(t, Projection(t), gone)
            && Projection(t).Keys !! gone
  {
    hide WithoutVersions, ReferencesResolve, SectionsOfVersions, Projection;
    var gone, purged, carried := SectionsOfVersions(t.sections, versionIds), WithoutVersions(t, versionIds).index, Carried(t, Projection(t), SectionsOfVersions(t.sections, versionIds));
    forall s
      ensures s in purged <==> s in Projection(t)
      ensures s in purged ==> purged[s] == Projection(t)[s] && s !in gone
    {
      PurgedRow(t, versionIds, s);
    }
    assert purged == Projection(t);
    forall s
      ensures s in carried <==> s in t.index - gone
      ensures s in carried ==> carried[s] == t.index[s]
    {
    }
  }

  // Only sections outside the index go, so an index that agrees is left as it was.
  lemma PurgeKeepsIndex(t: Tables, versionIds: set<nat>)
    requires ReferencesResolve(t) && IndexAgrees(t)
    requires forall v | v in versionIds && v in t.versions :: Prunable(t.versions[v])
    ensures WithoutVersions(t, versionIds).index == t.index
    ensures t.index - SectionsOfVersions(t.sections, versionIds) == t.index
  {
    hide WithoutVersions, ReferencesResolve, SectionsOfVersions, Projection, Carried;
    PurgeCarriesIndex(t, versionIds);
    NothingAstray(t, Projection(t), SectionsOfVersions(t.sections, versionIds));
  }

  // The delete guard never fires: no document points to a purged version.
  lemma NoPointerIsPurged(t: Tables, scope: Option<string>, keep: nat)
    requires BaseConsistent(t)
    ensures forall d :: d in t.documents && t.documents[d].currentVersion.Some? ==>
              t.documents[d].currentVersion.value !in PurgeCandidates(t, scope, keep)
  {
  }

  function Elements(ids: seq<nat>): set<nat> {
    set i | 0 <= i < |ids| :: ids[i]
  }

  predicate Distinct(ids: seq<nat>) {
    forall i, j :: 0 <= i < j < |ids| ==> ids[i] != ids[j]
  }

  class VersionPurger {
    const database: CatalogDatabase

    constructor (database: CatalogDatabase)
      ensures this.database == database
    {
      this.database := database;
    }

    method SelectPurgeableVersionIds(scope: Option<string>, keep: nat) returns (ids: seq<nat>)
      ensures Distinct(ids) && Elements(ids) == PurgeCandidates(database.Tables(), scope, keep)
    {
      var pending := PurgeCandidates(database.Tables(), scope, keep);
      ids := [];
      while pending != {}
        invariant Distinct(ids) && Elements(ids) !! pending
        invariant Elements(ids) + pending == PurgeCandidates(database.Tables(), scope, keep)
      {
        var v :| v in pending;
        pending := pending - {v};
        assert Elements(ids + [v]) == Elements(ids) + {v} by {
          assert forall i :: 0 <= i < |ids| ==> (ids + [v])[i] == ids[i];
          assert (ids + [v])[|ids|] == v;
        }
        ids := ids + [v];
      }
    }

    method CountSectionsByVersionIds(ids: seq<nat>) returns (total: nat)
      requires Distinct(ids)
      ensures total == |SectionsOfVersions(database.sections, Elements(ids))|
    {
      total := 0;
      var start := 0;
      while start < |ids|
        invariant 0 <= start <= |ids|
        invariant total == |SectionsOfVersions(database.sections, Elements(ids[..start]))|
      {
        var end := if start + SQLITE_ID_BATCH_SIZE < |ids| then start + SQLITE_ID_BATCH_SIZE else |ids|;
        BatchSections(database.sections, ids, start, end);
        total := total + |SectionsOfVersions(database.sections, Elements(ids[start..end]))|;
        start := end;
      }
      assert ids[..|ids|] == ids;
    }

    static lemma BatchElements(ids: seq<nat>, start: nat, end: nat)
      requires start <= end <= |ids| && Distinct(ids)
      ensures Elements(ids[..end]) == Elements(ids[..start]) + Elements(ids[start..end])
      ensures Elements(ids[..start]) !! Elements(ids[start..end])
      ensures |Elements(ids[..end])| == |Elements(ids[..start])| + |Elements(ids[start..end])|
      ensures Elements(ids[start..end]) <= Elements(ids)
    {
      forall i | 0 <= i < end
        ensures ids[i] in Elements(ids[..start]) + Elements(ids[start..end])
      {
        if i < start {
          assert ids[..start][i] == ids[i];
        } else {
          assert ids[start..end][i - start] == ids[i];
        }
      }
      forall v | v in Elements(ids[..start]) + Elements(ids[start..end])
        ensures v in Elements(ids[..end]) && v in Elements(ids)
      {
        var i :| 0 <= i < end && ids[i] == v;
        assert ids[..end][i] == v;
      }
      assert forall v :: v in Elements(ids[..end]) ==> v in Elements(ids[..start]) + Elements(ids[start..end]);
    }

    // A batch adds its own sections to those of the batches before it, with no overlap.
    static lemma BatchSections(sections: map<nat, Section>, ids: seq<nat>, start: nat, end: nat)
      requires start <= end <= |ids| && Distinct(ids)
      ensures var done, batch := SectionsOfVersions(sections, Elements(ids[..start])), SectionsOfVersions(sections, Elements(ids[start..end]));
              && SectionsOfVersions(sections, Elements(ids[..end])) == done + batch && done !! batch
              && |SectionsOfVersions(sections, Elements(ids[..end]))| == |done| + |batch|
    {
      BatchElements(ids, start, end);
      var done, batch := SectionsOfVersions(sections, Elements(ids[..start])), SectionsOfVersions(sections, Elements(ids[start..end]));
      assert SectionsOfVersions(sections, Elements(ids[..end])) == done + batch;
    }

    static lemma BatchStillStored(sections: map<nat, Section>, ids: seq<nat>, start: nat, end: nat)
      requires start <= end <= |ids| && Distinct(ids)
      ensures SectionsOfVersions(sections - SectionsOfVersions(sections, Elements(ids[..start])), Elements(ids[start..end]))
              == SectionsOfVersions(sections, Elements(ids[start..end]))
    {
      BatchElements(ids, start, end);
    }

    method DeleteSectionsByVersionIds(ids: seq<nat>) returns (deleted: nat)
      requires Distinct(ids)
      modifies database`index, database`sections
      ensures database.sections == old(database.sections) - SectionsOfVersions(old(database.sections), Elements(ids))
      ensures database.index == old(database.index) - SectionsOfVersions(old(database.sections), Elements(ids))
      ensures deleted == |SectionsOfVersions(old(database.sections), Elements(ids))|
    {
      ghost var sections, index := database.sections, database.index;
      deleted := 0;
      var start := 0;
      while start < |ids|
        invariant 0 <= start <= |ids|
        invariant database.sections == sections - SectionsOfVersions(sections, Elements(ids[..start]))
        invariant database.index == index - SectionsOfVersions(sections, Elements(ids[..start]))
        invariant deleted == |SectionsOfVersions(sections, Elements(ids[..start]))|
      {
        var end := if start + SQLITE_ID_BATCH_SIZE < |ids| then start + SQLITE_ID_BATCH_SIZE else |ids|;
        BatchSections(sections, ids, start, end);
        var gone := SectionsOfVersions(database.sections, Elements(ids[start..end]));
        BatchStillStored(sections, ids, start, end);
        MinusTwice(index, SectionsOfVersions(sections, Elements(ids[..start])), gone);
        MinusTwice(sections, SectionsOfVersions(sections, Elements(ids[..start])), gone);
        database.index := database.index - gone;
        database.sections := database.sections - gone;
        deleted := deleted + |gone|;
        start := end;
      }
      assert ids[..|ids|] == ids;
    }

    // The rows of a batch are still there when its turn comes.
    static lemma StillStored(versions: map<nat, Version>, done: set<nat>, batch: set<nat>)
      requires done !! batch && batch <= versions.Keys
      ensures (versions - done).Keys * batch == batch
    {
    }

    method DeleteVersionsByIds(ids: seq<nat>) returns (deleted: nat)
      requires Distinct(ids) && Elements(ids) <= database.versions.Keys
      modifies database`versions
      ensures database.versions == old(database.versions) - Elements(ids)
      ensures deleted == |Elements(ids)|
    {
      ghost var versions := database.versions;
      deleted := 0;
      var start := 0;
      while start < |ids|
        invariant 0 <= start <= |ids|
        invariant database.versions == versions - Elements(ids[..start])
        invariant deleted == |Elements(ids[..start])|
      {
        var end := if start + SQLITE_ID_BATCH_SIZE < |ids| then start + SQLITE_ID_BATCH_SIZE else |ids|;
        BatchElements(ids, start, end);
        var gone := database.versions.Keys * Elements(ids[start..end]);
        StillStored(versions, Elements(ids[..start]), Elements(ids[start..end]));
        MinusTwice(versions, Elements(ids[..start]), gone);
        database.versions := database.versions - gone;
        deleted := deleted + |gone|;
        start := end;
      }
      assert ids[..|ids|] == ids;
    }

    method PurgeOldDocumentVersions(scope: Option<string>, keep: nat, dryRun: bool) returns (result: PurgeResult)
      requires ReferencesResolve(database.Tables())
      modifies database`versions, database`sections, database`index
      ensures var t := old(database.Tables());
              var gone := SectionsOfVersions(t.sections, PurgeCandidates(t, scope, keep));
              && database.Tables() == (if dryRun then t else Purge(t, scope, keep).(index := Carried(t, Purge(t, scope, keep).index, gone)))
              && (!dryRun ==> database.index == t.index - gone)
              && (IndexAgrees(t) ==> database.index == t.index)
      ensures var candidates := PurgeCandidates(old(database.Tables()), scope, keep);
              var sections := SectionsOfVersions(old(database.sections), candidates);
              && result.scannedDocuments == |ScannedDocuments(old(database.Tables()), scope)|
              && result.candidateVersions == |candidates| && result.candidateSections == |sections|
              && result.purgedVersions == (if dryRun then 0 else |candidates|)
              && result.purgedSections == (if dryRun then 0 else |sections|)
    {
      var ids := SelectPurgeableVersionIds(scope, keep);
      ghost var t := database.Tables();
      var scanned := |ScannedDocuments(database.Tables(), scope)|;
      ghost var candidates := PurgeCandidates(t, scope, keep);
      ghost var gone := SectionsOfVersions(t.sections, candidates);
      PurgeCarriesIndex(t, candidates);
      if IndexAgrees(t) {
        PurgeKeepsIndex(t, candidates);
      }
      DistinctCount(ids);
      hide Carried, Projection, PurgeCandidates, SectionsOfVersions, ReferencesResolve;
      var sections := CountSectionsByVersionIds(ids);
      result := PurgeResult(scanned, |ids|, sections, 0, 0);
      if dryRun {
        return;
      }
      if |ids| == 0 {
        PurgeOfNothing(t, candidates);
        assert t.index - {} == t.index;
        return;
      }
      var purgedSections := DeleteSectionsByVersionIds(ids);
      var purgedVersions := DeleteVersionsByIds(ids);
      result := result.(candidateSections := purgedSections, purgedVersions := purgedVersions, purgedSections := purgedSections);
    }

    static lemma OneMoreElement(rest: seq<nat>, last: nat)
      ensures Elements(rest + [last]) == Elements(rest) + {last}
    {
      forall v | v in Elements(rest) + {last}
        ensures v in Elements(rest + [last])
      {
        if v == last {
          assert (rest + [last])[|rest|] == v;
        } else {
          var i :| 0 <= i < |rest| && rest[i] == v;
          assert (rest + [last])[i] == v;
        }
      }
    }

    static lemma {:induction false} DistinctCount(ids: seq<nat>)
      requires Distinct(ids)
      ensures |Elements(ids)| == |ids|
      decreases |ids|
    {
      if ids != [] {
        var rest := ids[..|ids| - 1];
        assert ids == rest + [ids[|ids| - 1]];
        DistinctCount(rest);
        OneMoreElement(rest, ids[|ids| - 1]);
        assert ids[|ids| - 1] !in Elements(rest);
      }
    }

    static lemma PurgeOfNothing(t: Tables, versionIds: set<nat>)
      requires versionIds == {}
      ensures WithoutVersions(t, versionIds) == Reindexed(t) && SectionsOfVersions(t.sections, versionIds) == {}
    {
      assert t.versions - versionIds == t.versions;
      assert SectionsOfVersions(t.sections, versionIds) == {};
      assert t.sections - {} == t.sections;
    }
  }
}
