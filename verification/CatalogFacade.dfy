// The repository facade: the source store's statements, and the update of a source, which rebuilds
// the whole index in the same transaction.
module CatalogFacade {
  import opened Prelude
  import opened CatalogTables
  import opened CatalogInvariant
  import opened CatalogTransactions
  import opened CatalogColumns
  import opened CatalogIndexing
  import opened CatalogStores

  class CatalogRepository {
    const database: CatalogDatabase
    const syncStore: SyncStore

    constructor (database: CatalogDatabase, syncStore: SyncStore)
      ensures this.database == database && this.syncStore == syncStore
    {
      this.database := database;
      this.syncStore := syncStore;
    }

    // A new source has no documents, so its insertion leaves the index alone.
    method AddSource(input: SourceInput, now: int) returns (error: Option<CatalogError>)
      requires ReferencesResolve(database.Tables())
      modifies database`sources
      ensures var t := old(database.Tables());
              var out := CatalogTransactions.AddSource(t, syncStore.ownedRuns, input, now);
              database.Tables() == Left(t, out, {}) && error == out.error
    {
      var taken := set s | s in database.sources && database.sources[s].key == input.key;
      if taken != {} {
        var s :| s in taken;
        return Some(ConstraintViolation);
      }
      assert forall s :: s in database.sources ==> s !in taken;
      error := None;
      var id := AllocateRowId(database.sources.Keys);
      var row := Source(input.key, input.displayName, input.enabled, now, now);
      NewSourceIndexesNothing(database.Tables(), id, row);
      NothingCleared(database.Tables(), database.Tables().(sources := database.sources[id := row]));
      hide Carried, Projection;
      database.sources := database.sources[id := row];
    }

    // The source store's UPDATE: key, creation time and id stay.
    method UpdateSourceRow(input: SourceInput, now: int) returns (error: Option<CatalogError>)
      requires UniqueSources(database.sources)
      modifies database`sources
      ensures error.Some? <==> forall s | s in old(database.sources) :: old(database.sources)[s].key != input.key
      ensures error.Some? ==> error == Some(SourceNotFound) && database.sources == old(database.sources)
      ensures error.None? ==> forall s | s in old(database.sources) && old(database.sources)[s].key == input.key ::
                database.sources == old(database.sources)[s := old(database.sources)[s].(
                  displayName := input.displayName, enabled := input.enabled, updatedAt := now)]
    {
      error := None;
      var matches := set s | s in database.sources && database.sources[s].key == input.key;
      assert forall s :: s in database.sources && database.sources[s].key == input.key ==> s in matches;
      if matches == {} {
        return Some(SourceNotFound);
      }
      var s :| s in matches;
      database.sources := database.sources[s := database.sources[s].(
        displayName := input.displayName, enabled := input.enabled, updatedAt := now)];
    }

    method RebuildSearchIndexNow() returns (indexedSections: nat)
      modifies database`index
      ensures database.index == Projection(old(database.Tables()))
      ensures ShowsCatalog(database.Tables(), database.index)
      ensures indexedSections == |database.index|
    {
      database.index := map[];
      SameCatalogSameProjection(old(database.Tables()), database.Tables());
      database.index := Projection(database.Tables());
      SameCatalogSameProjection(old(database.Tables()), database.Tables());
      RebuiltColumns(database.Tables());
      indexedSections := |database.index|;
    }

    method UpdateSource(input: SourceInput, now: int) returns (error: Option<CatalogError>)
      requires UniqueSources(database.sources)
      modifies database`sources, database`index
      ensures var out := CatalogTransactions.UpdateSource(old(database.Tables()), syncStore.ownedRuns, input, now);
              database.Tables() == out.tables && error == out.error
    {
      ghost var t := database.Tables();
      error := UpdateSourceRow(input, now);
      ghost var matches := set s | s in t.sources && t.sources[s].key == input.key;
      if error.Some? {
        return;
      }
      ghost var s :| s in t.sources && t.sources[s].key == input.key;
      assert s in matches;
      var _ := RebuildSearchIndexNow();
    }
  }
}
