/**
 What the storage adapter guarantees: the effect of each event kind on the raw
 rows and the id lists, the order in which a batch applies its logs, the
 empty-delta short-circuit, and that the decoded projection stays the decode
 of the raw rows from one batch to the next.
 */
module BatchProperties {
  import opened Hex
  import opened StoreSync

  // ---------------------------------------------------------------------------
  // One event

  /** A log whose table is not registered changes neither the raw rows nor the id lists. */
  lemma UnknownTableIsNoop<Id, T>(tables: map<TableId, T>, getId: (TableId, KeyTuple) -> Id, d: Delta<Id>, log: StoreLog)
    requires log.tableId !in tables
    ensures ApplyLog(tables, getId, d, log) == d
  {
  }

  /** `Store_SetRecord` replaces the row with exactly the event's fields and marks the id updated. */
  lemma SetRecordEffect<Id, T>(tables: map<TableId, T>, getId: (TableId, KeyTuple) -> Id, d: Delta<Id>, log: StoreLog)
    requires log.tableId in tables && log.event.SetRecord?
    ensures var id := getId(log.tableId, log.keyTuple);
            var r := ApplyLog(tables, getId, d, log);
            && id in r.rawRecords
            && r.rawRecords[id] == RawRecord(id, log.tableId, log.keyTuple,
                                             log.event.staticData, log.event.encodedLengths, log.event.dynamicData)
            && r.rawRecords - {id} == d.rawRecords - {id}
            && r.updatedIds == d.updatedIds + [id]
            && r.deletedIds == d.deletedIds
  {
  }

  /**
   `Store_SpliceStaticData` overwrites `|data|` bytes of the static data of the
   existing row, or of the empty placeholder, and leaves the rest of the row alone.
   */
  lemma SpliceStaticEffect<Id, T>(tables: map<TableId, T>, getId: (TableId, KeyTuple) -> Id, d: Delta<Id>, log: StoreLog)
    requires log.tableId in tables && log.event.SpliceStaticData?
    ensures var id := getId(log.tableId, log.keyTuple);
            var r := ApplyLog(tables, getId, d, log);
            var prev := if id in d.rawRecords then d.rawRecords[id] else Placeholder(id, log.tableId, log.keyTuple);
            var start, data := log.event.start, log.event.data;
            && id in r.rawRecords
            && r.rawRecords[id] == prev.(staticData := r.rawRecords[id].staticData)
            && r.rawRecords[id].staticData[start..start + |data|] == data
            && (start + |data| <= |prev.staticData| ==>
                  && r.rawRecords[id].staticData == prev.staticData[..start] + data + prev.staticData[start + |data|..]
                  && |r.rawRecords[id].staticData| == |prev.staticData|)
            && r.rawRecords - {id} == d.rawRecords - {id}
            && r.updatedIds == d.updatedIds + [id]
            && r.deletedIds == d.deletedIds
  {
  }

  /** A static splice at offset zero on an id with no raw row yields a row whose static data is the splice's data. */
  lemma SpliceStaticOnUnseenId<Id, T>(tables: map<TableId, T>, getId: (TableId, KeyTuple) -> Id, d: Delta<Id>, log: StoreLog)
    requires log.tableId in tables && log.event.SpliceStaticData? && log.event.start == 0
    requires getId(log.tableId, log.keyTuple) !in d.rawRecords
    ensures var id := getId(log.tableId, log.keyTuple);
            var r := ApplyLog(tables, getId, d, log);
            id in r.rawRecords &&
            r.rawRecords[id] == RawRecord(id, log.tableId, log.keyTuple, log.event.data, [], [])
  {
    SpliceIntoEmpty(log.event.data, |log.event.data|);
  }

  /**
   `Store_SpliceDynamicData` splices the dynamic data of the existing row, or of
   the empty placeholder, takes the event's encoded lengths as given and leaves
   the static data alone.
   */
  lemma SpliceDynamicEffect<Id, T>(tables: map<TableId, T>, getId: (TableId, KeyTuple) -> Id, d: Delta<Id>, log: StoreLog)
    requires log.tableId in tables && log.event.SpliceDynamicData?
    ensures var id := getId(log.tableId, log.keyTuple);
            var r := ApplyLog(tables, getId, d, log);
            var prev := if id in d.rawRecords then d.rawRecords[id] else Placeholder(id, log.tableId, log.keyTuple);
            var ev := log.event;
            && id in r.rawRecords
            && r.rawRecords[id] == prev.(encodedLengths := ev.encodedLengths, dynamicData := r.rawRecords[id].dynamicData)
            && r.rawRecords[id].dynamicData[ev.start..ev.start + |ev.data|] == ev.data
            && (ev.start + ev.deleteCount <= |prev.dynamicData| ==>
                  && r.rawRecords[id].dynamicData == prev.dynamicData[..ev.start] + ev.data + prev.dynamicData[ev.start + ev.deleteCount..]
                  && |r.rawRecords[id].dynamicData| == |prev.dynamicData| - ev.deleteCount + |ev.data|)
            && r.rawRecords - {id} == d.rawRecords - {id}
            && r.updatedIds == d.updatedIds + [id]
            && r.deletedIds == d.deletedIds
  {
  }

  /** `Store_DeleteRecord` removes the row, present or not, and marks the id deleted. */
  lemma DeleteRecordEffect<Id, T>(tables: map<TableId, T>, getId: (TableId, KeyTuple) -> Id, d: Delta<Id>, log: StoreLog)
    requires log.tableId in tables && log.event.DeleteRecord?
    ensures var id := getId(log.tableId, log.keyTuple);
            var r := ApplyLog(tables, getId, d, log);
            && r.rawRecords == d.rawRecords - {id}
            && id !in r.rawRecords
            && r.updatedIds == d.updatedIds
            && r.deletedIds == d.deletedIds + [id]
  {
  }

  // ---------------------------------------------------------------------------
  // A sequence of events

  /** Applying `a + b` is applying `a` and then `b`: the logs are applied one at a time, in order. */
  lemma {:induction false} ApplyLogsAppend<Id, T>(tables: map<TableId, T>, getId: (TableId, KeyTuple) -> Id, d: Delta<Id>, a: seq<StoreLog>, b: seq<StoreLog>)
    ensures ApplyLogs(tables, getId, d, a + b) == ApplyLogs(tables, getId, ApplyLogs(tables, getId, d, a), b)
    decreases |b|
  {
    if b == [] {
      assert a + b == a;
    } else {
      var b' := b[..|b| - 1];
      assert (a + b)[..|a + b| - 1] == a + b';
      assert (a + b)[|a + b| - 1] == b[|b| - 1];
      ApplyLogsAppend(tables, getId, d, a, b');
    }
  }

  /** Applying a single log is one pass of the loop. */
  lemma ApplyLogsSingle<Id, T>(tables: map<TableId, T>, getId: (TableId, KeyTuple) -> Id, d: Delta<Id>, log: StoreLog)
    ensures ApplyLogs(tables, getId, d, [log]) == ApplyLog(tables, getId, d, log)
  {
    assert [log][..0] == [];
  }

  /** The number of logs of a batch whose table is registered. */
  function CountKnown<T>(tables: map<TableId, T>, logs: seq<StoreLog>): (n: nat)
    ensures n <= |logs|
    ensures n == 0 <==> forall k :: 0 <= k < |logs| ==> logs[k].tableId !in tables
  {
    if logs == [] then 0
    else
      var init := CountKnown(tables, logs[..|logs| - 1]);
      assert forall k :: 0 <= k < |logs| - 1 ==> logs[..|logs| - 1][k] == logs[k];
      init + if logs[|logs| - 1].tableId in tables then 1 else 0
  }

  /**
   Every log of a registered table adds exactly one id to exactly one of the two
   lists (no deduplication), and the lists only grow at their ends.
   */
  lemma {:induction false} DeltaCountsKnownLogs<Id, T>(tables: map<TableId, T>, getId: (TableId, KeyTuple) -> Id, d: Delta<Id>, logs: seq<StoreLog>)
    ensures var r := ApplyLogs(tables, getId, d, logs);
            && |r.updatedIds| + |r.deletedIds| == |d.updatedIds| + |d.deletedIds| + CountKnown(tables, logs)
            && d.updatedIds <= r.updatedIds && d.deletedIds <= r.deletedIds
    decreases |logs|
  {
    if logs != [] {
      DeltaCountsKnownLogs(tables, getId, d, logs[..|logs| - 1]);
    }
  }

  /** A batch whose logs all name unregistered tables leaves the copied rows and the lists as they were. */
  lemma {:induction false} UnknownTablesAreNoop<Id, T>(tables: map<TableId, T>, getId: (TableId, KeyTuple) -> Id, d: Delta<Id>, logs: seq<StoreLog>)
    requires forall k :: 0 <= k < |logs| ==> logs[k].tableId !in tables
    ensures ApplyLogs(tables, getId, d, logs) == d
    decreases |logs|
  {
    if logs != [] {
      var init := logs[..|logs| - 1];
      assert forall k :: 0 <= k < |init| ==> init[k] == logs[k];
      UnknownTablesAreNoop(tables, getId, d, init);
    }
  }

  // ---------------------------------------------------------------------------
  // What a batch does to ids it touches and ids it does not

  /**
   Relative to the raw rows `raw` a batch started from: an id in neither list
   kept its row (or its absence); an id deleted and never updated has no row;
   an updated id without a row was also deleted.
   */
  ghost predicate ReplayInvariant<Id(!new)>(raw: map<Id, RawRecord<Id>>, d: Delta<Id>)
  {
    && (forall id :: id !in d.updatedIds && id !in d.deletedIds ==>
          (id in d.rawRecords <==> id in raw) && (id in raw ==> d.rawRecords[id] == raw[id]))
    && (forall id :: id in d.deletedIds && id !in d.updatedIds ==> id !in d.rawRecords)
    && (forall id :: id in d.updatedIds && id !in d.rawRecords ==> id in d.deletedIds)
  }

  lemma ApplyLogKeepsReplayInvariant<Id(!new), T>(tables: map<TableId, T>, getId: (TableId, KeyTuple) -> Id, raw: map<Id, RawRecord<Id>>, d: Delta<Id>, log: StoreLog)
    requires ReplayInvariant(raw, d)
    ensures ReplayInvariant(raw, ApplyLog(tables, getId, d, log))
  {
  }

  /** Every prefix of a batch keeps the replay invariant. */
  lemma {:induction false} ReplayFrame<Id(!new), T>(tables: map<TableId, T>, getId: (TableId, KeyTuple) -> Id, raw: map<Id, RawRecord<Id>>, logs: seq<StoreLog>)
    ensures ReplayInvariant(raw, ApplyLogs(tables, getId, StartBatch(raw), logs))
    decreases |logs|
  {
    if logs != [] {
      var init := logs[..|logs| - 1];
      ReplayFrame(tables, getId, raw, init);
      ApplyLogKeepsReplayInvariant(tables, getId, raw, ApplyLogs(tables, getId, StartBatch(raw), init), logs[|logs| - 1]);
    }
  }

  /** When both lists come back empty the copied rows equal the store's: skipping the write loses nothing. */
  lemma NoDeltaKeepsRawRecords<Id(!new), T>(tables: map<TableId, T>, getId: (TableId, KeyTuple) -> Id, raw: map<Id, RawRecord<Id>>, logs: seq<StoreLog>)
    requires var d := ApplyLogs(tables, getId, StartBatch(raw), logs); d.updatedIds == [] && d.deletedIds == []
    ensures ApplyLogs(tables, getId, StartBatch(raw), logs).rawRecords == raw
  {
    ReplayFrame(tables, getId, raw, logs);
  }

  /** An empty batch leaves the store as it was. */
  lemma EmptyBatchIsNoop<Id(!new), T, K, V>(tables: map<TableId, T>, getId: (TableId, KeyTuple) -> Id, dec: Decoder<T, K, V>, s: Snapshot<Id, T, K, V>)
    ensures ApplyBatch(tables, getId, dec, s, []) == s
  {
  }

  /** The raw rows after a batch are the rows the loop produced, whether or not the store was written. */
  lemma BatchRawRecordsAreReplay<Id(!new), T, K, V>(tables: map<TableId, T>, getId: (TableId, KeyTuple) -> Id, dec: Decoder<T, K, V>, s: Snapshot<Id, T, K, V>, logs: seq<StoreLog>)
    ensures ApplyBatch(tables, getId, dec, s, logs).rawRecords == ApplyLogs(tables, getId, StartBatch(s.rawRecords), logs).rawRecords
  {
    var d := ApplyLogs(tables, getId, StartBatch(s.rawRecords), logs);
    if d.updatedIds == [] && d.deletedIds == [] {
      NoDeltaKeepsRawRecords(tables, getId, s.rawRecords, logs);
    }
  }

  // ---------------------------------------------------------------------------
  // Invariants of the raw rows and of the projection

  /** Every raw row belongs to a registered table and sits under the id `getId` gives its table and key. */
  ghost predicate RawRecordsWellFormed<Id(!new), T>(tables: map<TableId, T>, getId: (TableId, KeyTuple) -> Id, raw: map<Id, RawRecord<Id>>)
  {
    forall id :: id in raw ==>
      raw[id].tableId in tables && raw[id].id == id && getId(raw[id].tableId, raw[id].keyTuple) == id
  }

  lemma ApplyLogKeepsWellFormed<Id(!new), T>(tables: map<TableId, T>, getId: (TableId, KeyTuple) -> Id, d: Delta<Id>, log: StoreLog)
    requires RawRecordsWellFormed(tables, getId, d.rawRecords)
    ensures RawRecordsWellFormed(tables, getId, ApplyLog(tables, getId, d, log).rawRecords)
  {
  }

  lemma {:induction false} ApplyLogsKeepsWellFormed<Id(!new), T>(tables: map<TableId, T>, getId: (TableId, KeyTuple) -> Id, d: Delta<Id>, logs: seq<StoreLog>)
    requires RawRecordsWellFormed(tables, getId, d.rawRecords)
    ensures RawRecordsWellFormed(tables, getId, ApplyLogs(tables, getId, d, logs).rawRecords)
    decreases |logs|
  {
    if logs != [] {
      ApplyLogsKeepsWellFormed(tables, getId, d, logs[..|logs| - 1]);
      ApplyLogKeepsWellFormed(tables, getId, ApplyLogs(tables, getId, d, logs[..|logs| - 1]), logs[|logs| - 1]);
    }
  }

  /**
   The projection is the decode of the raw rows: the same ids, each record the
   decode of its row, and every row of a registered table.
   */
  ghost predicate Synced<Id(!new), T, K, V>(tables: map<TableId, T>, getId: (TableId, KeyTuple) -> Id, dec: Decoder<T, K, V>, s: Snapshot<Id, T, K, V>)
  {
    && RawRecordsWellFormed(tables, getId, s.rawRecords)
    && s.records.Keys == s.rawRecords.Keys
    && forall id :: id in s.rawRecords ==> s.records[id] == Decode(tables, dec, id, s.rawRecords[id])
  }

  /** The store starts synced: no rows, no records. */
  lemma EmptyStoreIsSynced<Id(!new), T, K, V>(tables: map<TableId, T>, getId: (TableId, KeyTuple) -> Id, dec: Decoder<T, K, V>)
    ensures Synced(tables, getId, dec, Snapshot(map[], map[]))
  {
  }

  /** Rebuilding the projection from rows that satisfy the replay invariant keeps it synced. */
  lemma BuildRecordsKeepsSynced<Id(!new), T, K, V>(tables: map<TableId, T>, getId: (TableId, KeyTuple) -> Id, dec: Decoder<T, K, V>, s: Snapshot<Id, T, K, V>, d: Delta<Id>)
    requires Synced(tables, getId, dec, s)
    requires ReplayInvariant(s.rawRecords, d) && RawRecordsWellFormed(tables, getId, d.rawRecords)
    ensures Synced(tables, getId, dec, Snapshot(d.rawRecords, BuildRecords(tables, dec, d.rawRecords, s.records, d.updatedIds, d.deletedIds)))
  {
    var r := BuildRecords(tables, dec, d.rawRecords, s.records, d.updatedIds, d.deletedIds);
    assert r.Keys == d.rawRecords.Keys;
  }

  /** Each batch keeps the projection equal to the decode of the raw rows. */
  lemma BatchKeepsSynced<Id(!new), T, K, V>(tables: map<TableId, T>, getId: (TableId, KeyTuple) -> Id, dec: Decoder<T, K, V>, s: Snapshot<Id, T, K, V>, logs: seq<StoreLog>)
    requires Synced(tables, getId, dec, s)
    ensures Synced(tables, getId, dec, ApplyBatch(tables, getId, dec, s, logs))
  {
    var d := ApplyLogs(tables, getId, StartBatch(s.rawRecords), logs);
    if d.updatedIds != [] || d.deletedIds != [] {
      ReplayFrame(tables, getId, s.rawRecords, logs);
      ApplyLogsKeepsWellFormed(tables, getId, StartBatch(s.rawRecords), logs);
      BuildRecordsKeepsSynced(tables, getId, dec, s, d);
    }
  }

  // ---------------------------------------------------------------------------
  // Two events on one id within a batch

  /** Set then delete: the id ends up in both lists, with no raw row and no record. */
  lemma SetThenDelete<Id(!new), T, K, V>(tables: map<TableId, T>, getId: (TableId, KeyTuple) -> Id, dec: Decoder<T, K, V>,
                                           s: Snapshot<Id, T, K, V>, before: seq<StoreLog>, tableId: TableId, keyTuple: KeyTuple, ev: StoreEvent)
    requires tableId in tables && ev.SetRecord?
    ensures var id := getId(tableId, keyTuple);
            var logs := before + [StoreLog(tableId, keyTuple, ev), StoreLog(tableId, keyTuple, DeleteRecord)];
            var d := ApplyLogs(tables, getId, StartBatch(s.rawRecords), logs);
            var after := ApplyBatch(tables, getId, dec, s, logs);
            && id in d.updatedIds && id in d.deletedIds
            && id !in after.rawRecords && id !in after.records
  {
    var id := getId(tableId, keyTuple);
    var set_, del := StoreLog(tableId, keyTuple, ev), StoreLog(tableId, keyTuple, DeleteRecord);
    var d0 := StartBatch(s.rawRecords);
    ApplyLogsAppend(tables, getId, d0, before, [set_, del]);
    ApplyLogsAppend(tables, getId, ApplyLogs(tables, getId, d0, before), [set_], [del]);
    ApplyLogsSingle(tables, getId, ApplyLogs(tables, getId, d0, before), set_);
    var d1 := ApplyLog(tables, getId, ApplyLogs(tables, getId, d0, before), set_);
    ApplyLogsSingle(tables, getId, d1, del);
    assert [set_] + [del] == [set_, del];
  }

  /** Delete then set: the id ends up with the set row and with that row's decode as its record. */
  lemma DeleteThenSet<Id(!new), T, K, V>(tables: map<TableId, T>, getId: (TableId, KeyTuple) -> Id, dec: Decoder<T, K, V>,
                                           s: Snapshot<Id, T, K, V>, before: seq<StoreLog>, tableId: TableId, keyTuple: KeyTuple, ev: StoreEvent)
    requires tableId in tables && ev.SetRecord?
    ensures var id := getId(tableId, keyTuple);
            var row := RawRecord(id, tableId, keyTuple, ev.staticData, ev.encodedLengths, ev.dynamicData);
            var logs := before + [StoreLog(tableId, keyTuple, DeleteRecord), StoreLog(tableId, keyTuple, ev)];
            var after := ApplyBatch(tables, getId, dec, s, logs);
            && id in after.rawRecords && after.rawRecords[id] == row
            && id in after.records && after.records[id] == Decode(tables, dec, id, row)
  {
    var del, set_ := StoreLog(tableId, keyTuple, DeleteRecord), StoreLog(tableId, keyTuple, ev);
    var d0 := StartBatch(s.rawRecords);
    ApplyLogsAppend(tables, getId, d0, before, [del, set_]);
    ApplyLogsAppend(tables, getId, ApplyLogs(tables, getId, d0, before), [del], [set_]);
    ApplyLogsSingle(tables, getId, ApplyLogs(tables, getId, d0, before), del);
    var d1 := ApplyLog(tables, getId, ApplyLogs(tables, getId, d0, before), del);
    ApplyLogsSingle(tables, getId, d1, set_);
    assert [del] + [set_] == [del, set_];
  }

  // ---------------------------------------------------------------------------
  // Three batches on one row

  /** A single-log batch whose log names a registered table delivers one id. */
  lemma {:induction false} SingleLogBatch<Id(!new), T, K, V>(tables: map<TableId, T>, getId: (TableId, KeyTuple) -> Id, dec: Decoder<T, K, V>,
                                                             s: Snapshot<Id, T, K, V>, log: StoreLog)
    requires log.tableId in tables
    ensures var d := ApplyLog(tables, getId, StartBatch(s.rawRecords), log);
            var id := getId(log.tableId, log.keyTuple);
            && ApplyLogs(tables, getId, StartBatch(s.rawRecords), [log]) == d
            && (if log.event.DeleteRecord? then d.updatedIds == [] && d.deletedIds == [id]
                else d.updatedIds == [id] && d.deletedIds == [])
            && ApplyBatch(tables, getId, dec, s, [log]) ==
                 Snapshot(d.rawRecords, BuildRecords(tables, dec, d.rawRecords, s.records, d.updatedIds, d.deletedIds))
  {
    ApplyLogsSingle(tables, getId, StartBatch(s.rawRecords), log);
  }

  /** When the only updated id has the only raw row, the projection holds exactly that row's decode. */
  lemma BuildRecordsOneUpdate<Id(!new), T, K, V>(tables: map<TableId, T>, dec: Decoder<T, K, V>, a: Id, row: RawRecord<Id>,
                                                  records: map<Id, TableRecord<Id, T, K, V>>)
    requires row.tableId in tables && records.Keys <= {a}
    ensures BuildRecords(tables, dec, map[a := row], records, [a], []) == map[a := Decode(tables, dec, a, row)]
  {
    var r := BuildRecords(tables, dec, map[a := row], records, [a], []);
    assert r.Keys == {a};
  }

  /** First batch of the scenario below: `Store_SetRecord` on an empty store. */
  lemma ScenarioSet<Id(!new), T, K, V>(tables: map<TableId, T>, getId: (TableId, KeyTuple) -> Id, dec: Decoder<T, K, V>,
                                        tableId: TableId, keyTuple: KeyTuple)
    requires tableId in tables
    ensures var a := getId(tableId, keyTuple);
            var row := RawRecord(a, tableId, keyTuple, [1], [], []);
            ApplyBatch(tables, getId, dec, Snapshot(map[], map[]), [StoreLog(tableId, keyTuple, SetRecord([1], [], []))])
              == Snapshot(map[a := row], map[a := Decode(tables, dec, a, row)])
  {
    var a := getId(tableId, keyTuple);
    var row := RawRecord(a, tableId, keyTuple, [1], [], []);
    var s0: Snapshot<Id, T, K, V> := Snapshot(map[], map[]);
    var l := StoreLog(tableId, keyTuple, SetRecord([1], [], []));
    SingleLogBatch(tables, getId, dec, s0, l);
    assert ApplyLog(tables, getId, StartBatch(s0.rawRecords), l) == Delta(map[a := row], [a], []);
    BuildRecordsOneUpdate(tables, dec, a, row, s0.records);
  }

  /** Second batch of the scenario below: `Store_SpliceStaticData` of `0x02` at offset zero. */
  lemma ScenarioSplice<Id(!new), T, K, V>(tables: map<TableId, T>, getId: (TableId, KeyTuple) -> Id, dec: Decoder<T, K, V>,
                                           tableId: TableId, keyTuple: KeyTuple)
    requires tableId in tables
    ensures var a := getId(tableId, keyTuple);
            var row1 := RawRecord(a, tableId, keyTuple, [1], [], []);
            var row2 := RawRecord(a, tableId, keyTuple, [2], [], []);
            ApplyBatch(tables, getId, dec, Snapshot(map[a := row1], map[a := Decode(tables, dec, a, row1)]),
                       [StoreLog(tableId, keyTuple, SpliceStaticData(0, [2]))])
              == Snapshot(map[a := row2], map[a := Decode(tables, dec, a, row2)])
  {
    var a := getId(tableId, keyTuple);
    var row1 := RawRecord(a, tableId, keyTuple, [1], [], []);
    var row2 := RawRecord(a, tableId, keyTuple, [2], [], []);
    var s1: Snapshot<Id, T, K, V> := Snapshot(map[a := row1], map[a := Decode(tables, dec, a, row1)]);
    var l := StoreLog(tableId, keyTuple, SpliceStaticData(0, [2]));
    SingleLogBatch(tables, getId, dec, s1, l);
    assert Splice([1], 0, 1, [2]) == [2];
    assert ApplyLog(tables, getId, StartBatch(s1.rawRecords), l) == Delta(map[a := row2], [a], []);
    BuildRecordsOneUpdate(tables, dec, a, row2, s1.records);
  }

  /** Third batch of the scenario below: `Store_DeleteRecord` of the only row. */
  lemma ScenarioDelete<Id(!new), T, K, V>(tables: map<TableId, T>, getId: (TableId, KeyTuple) -> Id, dec: Decoder<T, K, V>,
                                           tableId: TableId, keyTuple: KeyTuple, row: RawRecord<Id>)
    requires tableId in tables && row.tableId in tables
    ensures var a := getId(tableId, keyTuple);
            ApplyBatch(tables, getId, dec, Snapshot(map[a := row], map[a := Decode(tables, dec, a, row)]),
                       [StoreLog(tableId, keyTuple, DeleteRecord)])
              == Snapshot(map[], map[])
  {
    var a := getId(tableId, keyTuple);
    var s2: Snapshot<Id, T, K, V> := Snapshot(map[a := row], map[a := Decode(tables, dec, a, row)]);
    var l := StoreLog(tableId, keyTuple, DeleteRecord);
    SingleLogBatch(tables, getId, dec, s2, l);
    var s3 := ApplyBatch(tables, getId, dec, s2, [l]);
    assert s3.rawRecords.Keys == {};
    assert s3.records.Keys == {};
  }

  /**
   A row set with static data `0x01`, then spliced to `0x02` at offset zero,
   then deleted, one batch each, starting from an empty store.
   */
  lemma SetSpliceDeleteScenario<Id(!new), T, K, V>(tables: map<TableId, T>, getId: (TableId, KeyTuple) -> Id, dec: Decoder<T, K, V>,
                                                     tableId: TableId, keyTuple: KeyTuple)
    requires tableId in tables
    ensures var a := getId(tableId, keyTuple);
            var s0 := Snapshot(map[], map[]);
            var s1 := ApplyBatch(tables, getId, dec, s0, [StoreLog(tableId, keyTuple, SetRecord([1], [], []))]);
            var s2 := ApplyBatch(tables, getId, dec, s1, [StoreLog(tableId, keyTuple, SpliceStaticData(0, [2]))]);
            var s3 := ApplyBatch(tables, getId, dec, s2, [StoreLog(tableId, keyTuple, DeleteRecord)]);
            var row1 := RawRecord(a, tableId, keyTuple, [1], [], []);
            var row2 := RawRecord(a, tableId, keyTuple, [2], [], []);
            && s1.rawRecords == map[a := row1] && s1.records == map[a := Decode(tables, dec, a, row1)]
            && s2.rawRecords == map[a := row2] && s2.records == map[a := Decode(tables, dec, a, row2)]
            && s3.rawRecords == map[] && s3.records == map[]
  {
    var a := getId(tableId, keyTuple);
    ScenarioSet(tables, getId, dec, tableId, keyTuple);
    ScenarioSplice(tables, getId, dec, tableId, keyTuple);
    ScenarioDelete(tables, getId, dec, tableId, keyTuple, RawRecord(a, tableId, keyTuple, [2], [], []));
  }
}
