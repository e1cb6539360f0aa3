/**
 The zustand store and the storage adapter created over it. The adapter's
 event loop updates a copy of the raw rows in place and appends to the two id
 lists; it is proved to compute `ApplyLogs`. The adapter then writes the new
 raw rows and the rebuilt projection in one assignment, or nothing at all
 when the batch touched no id.
 */
module Zustand {
  import opened Hex
  import opened StoreSync
  import opened BatchProperties

  /**
   The loop of the adapter over `logs`: starting from a copy of the raw rows,
   each log of a registered table sets, splices or deletes one row and appends
   its id to `updatedIds` or `deletedIds`.
   */
  method ReplayLogs<Id(==, !new), T>(tables: map<TableId, T>, getId: (TableId, KeyTuple) -> Id,
                                  storeRawRecords: map<Id, RawRecord<Id>>, logs: seq<StoreLog>)
    returns (rawRecords: map<Id, RawRecord<Id>>, updatedIds: seq<Id>, deletedIds: seq<Id>)
    ensures Delta(rawRecords, updatedIds, deletedIds) == ApplyLogs(tables, getId, StartBatch(storeRawRecords), logs)
  {
    updatedIds, deletedIds := [], [];
    rawRecords := storeRawRecords;
    for i := 0 to |logs|
      invariant Delta(rawRecords, updatedIds, deletedIds) == ApplyLogs(tables, getId, StartBatch(storeRawRecords), logs[..i])
    {
      assert logs[..i + 1][..i] == logs[..i];
      var log := logs[i];
      if log.tableId !in tables {
        continue;
      }
      var id := getId(log.tableId, log.keyTuple);
      match log.event {
        case SetRecord(staticData, encodedLengths, dynamicData) =>
          rawRecords := rawRecords[id := RawRecord(id, log.tableId, log.keyTuple, staticData, encodedLengths, dynamicData)];
          updatedIds := updatedIds + [id];
        case SpliceStaticData(start, data) =>
          var previousRecord := if id in rawRecords then rawRecords[id] else Placeholder(id, log.tableId, log.keyTuple);
          var staticData := Splice(previousRecord.staticData, start, |data|, data);
          rawRecords := rawRecords[id := previousRecord.(staticData := staticData)];
          updatedIds := updatedIds + [id];
        case SpliceDynamicData(start, deleteCount, encodedLengths, data) =>
          var previousRecord := if id in rawRecords then rawRecords[id] else Placeholder(id, log.tableId, log.keyTuple);
          var dynamicData := Splice(previousRecord.dynamicData, start, deleteCount, data);
          rawRecords := rawRecords[id := previousRecord.(encodedLengths := encodedLengths, dynamicData := dynamicData)];
          updatedIds := updatedIds + [id];
        case DeleteRecord =>
          rawRecords := rawRecords - {id};
          deletedIds := deletedIds + [id];
      }
    }
    assert logs[..|logs|] == logs;
  }

  /** The part of the zustand store's state the adapter reads and writes. */
  class ZustandStore<Id(==, !new), T, K, V> {
    var tables: map<TableId, T>
    var rawRecords: map<Id, RawRecord<Id>>
    var records: map<Id, TableRecord<Id, T, K, V>>

    /** A store with registered tables and no rows yet. */
    constructor (tables: map<TableId, T>)
      ensures this.tables == tables && rawRecords == map[] && records == map[]
    {
      this.tables := tables;
      rawRecords := map[];
      records := map[];
    }

    /** The raw rows and the projection, as one value. */
    function State(): (s: Snapshot<Id, T, K, V>)
      reads this
    {
      Snapshot(rawRecords, records)
    }
  }

  /** What `createStorageAdapter({ store })` returns, with the foreign helpers it calls. */
  class StorageAdapter<Id(==, !new), T, K, V> {
    const store: ZustandStore<Id, T, K, V>
    const getId: (TableId, KeyTuple) -> Id
    const decoder: Decoder<T, K, V>

    constructor (store: ZustandStore<Id, T, K, V>, getId: (TableId, KeyTuple) -> Id, decoder: Decoder<T, K, V>)
      ensures this.store == store && this.getId == getId && this.decoder == decoder
    {
      this.store := store;
      this.getId := getId;
      this.decoder := decoder;
    }

    /**
     One call of the adapter on a block's logs. The new state is `ApplyBatch`
     of the old; the registered tables are not touched; a store whose
     projection was the decode of its raw rows stays so.
     */
    method ZustandStorageAdapter(logs: seq<StoreLog>)
      modifies store`rawRecords, store`records
      ensures store.State() == ApplyBatch(store.tables, getId, decoder, old(store.State()), logs)
      ensures old(Synced(store.tables, getId, decoder, store.State())) ==> Synced(store.tables, getId, decoder, store.State())
      ensures (forall k :: 0 <= k < |logs| ==> logs[k].tableId !in store.tables) ==> store.State() == old(store.State())
    {
      ghost var before := store.State();
      var rawRecords, updatedIds, deletedIds := ReplayLogs(store.tables, getId, store.rawRecords, logs);
      if Synced(store.tables, getId, decoder, before) {
        BatchKeepsSynced(store.tables, getId, decoder, before, logs);
      }
      if forall k :: 0 <= k < |logs| ==> logs[k].tableId !in store.tables {
        UnknownTablesAreNoop(store.tables, getId, StartBatch(before.rawRecords), logs);
      }
      if updatedIds == [] && deletedIds == [] {
        return;
      }
      var records := BuildRecords(store.tables, decoder, rawRecords, store.records, updatedIds, deletedIds);
      store.rawRecords, store.records := rawRecords, records;
    }
  }
}
