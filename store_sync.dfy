/**
 The zustand storage adapter of store-sync, as values: the raw rows it keeps,
 the store events it is fed, one event's effect on the raw rows, a batch of
 events, and the decoded projection it rebuilds at the end of a batch.

 What the adapter borrows from other packages is a parameter here: `getId`
 (a row id computed from a table id and a key tuple) and a `Decoder` pairing
 `decodeKey(flattenSchema(table.keySchema), …)` with
 `decodeValueArgs(flattenSchema(table.valueSchema), …)`. Ids, tables and the
 decoded keys and values are type parameters.
 */
module StoreSync {
  import opened Hex

  type TableId = Hex
  type KeyTuple = seq<Hex>

  datatype Option<+A> = None | Some(value: A)

  /** The bytes stored for one row, as kept under `rawRecords[id]`. */
  datatype RawRecord<Id> = RawRecord(
    id: Id,
    tableId: TableId,
    keyTuple: KeyTuple,
    staticData: Hex,
    encodedLengths: Hex,
    dynamicData: Hex)

  /** The four store events, each with the arguments the adapter reads. */
  datatype StoreEvent =
    | SetRecord(staticData: Hex, encodedLengths: Hex, dynamicData: Hex)
    | SpliceStaticData(start: nat, data: Hex)
    | SpliceDynamicData(start: nat, deleteCount: nat, encodedLengths: Hex, data: Hex)
    | DeleteRecord

  /** One log of a batch: the table and key it addresses and the event. */
  datatype StoreLog = StoreLog(tableId: TableId, keyTuple: KeyTuple, event: StoreEvent)

  /** A decoded row, as kept under `records[id]`. */
  datatype TableRecord<Id, T, K, V> = TableRecord(id: Id, table: T, keyTuple: KeyTuple, key: K, value: V)

  /** The two decoders the projection applies to a raw row of a known table. */
  datatype Decoder<!T, K, V> = Decoder(
    decodeKey: (T, KeyTuple) -> K,
    decodeValue: (T, Hex, Hex, Hex) -> V)

  /** What the event loop accumulates: the copied raw rows and the two id lists. */
  datatype Delta<Id> = Delta(rawRecords: map<Id, RawRecord<Id>>, updatedIds: seq<Id>, deletedIds: seq<Id>)

  /** What the store holds after a batch: raw rows and the decoded projection. */
  datatype Snapshot<Id, T, K, V> = Snapshot(rawRecords: map<Id, RawRecord<Id>>, records: map<Id, TableRecord<Id, T, K, V>>)

  /** The row a splice starts from when the id has no raw row yet: all three byte fields empty. */
  function Placeholder<Id>(id: Id, tableId: TableId, keyTuple: KeyTuple): (r: RawRecord<Id>)
  {
    RawRecord(id, tableId, keyTuple, [], [], [])
  }

  /** `rawRecords[id] ?? placeholder`. */
  function PreviousRecord<Id>(rawRecords: map<Id, RawRecord<Id>>, id: Id, log: StoreLog): (r: RawRecord<Id>)
  {
    if id in rawRecords then rawRecords[id] else Placeholder(id, log.tableId, log.keyTuple)
  }

  /**
   One pass of the event loop: a log for an unknown table is skipped; otherwise
   the row `getId(tableId, keyTuple)` is set, spliced or deleted and its id
   appended to the matching list. No other row changes, and the lists only
   grow at their ends.
   */
  function ApplyLog<Id, T>(tables: map<TableId, T>, getId: (TableId, KeyTuple) -> Id, d: Delta<Id>, log: StoreLog): (r: Delta<Id>)
    ensures d.updatedIds <= r.updatedIds && d.deletedIds <= r.deletedIds
    ensures |r.updatedIds| + |r.deletedIds| == |d.updatedIds| + |d.deletedIds| + (if log.tableId in tables then 1 else 0)
    ensures r.rawRecords - {getId(log.tableId, log.keyTuple)} == d.rawRecords - {getId(log.tableId, log.keyTuple)}
  {
    if log.tableId !in tables then d
    else
      var id := getId(log.tableId, log.keyTuple);
      match log.event
      case SetRecord(staticData, encodedLengths, dynamicData) =>
        var row := RawRecord(id, log.tableId, log.keyTuple, staticData, encodedLengths, dynamicData);
        Delta(d.rawRecords[id := row], d.updatedIds + [id], d.deletedIds)
      case SpliceStaticData(start, data) =>
        var prev := PreviousRecord(d.rawRecords, id, log);
        var row := prev.(staticData := Splice(prev.staticData, start, |data|, data));
        Delta(d.rawRecords[id := row], d.updatedIds + [id], d.deletedIds)
      case SpliceDynamicData(start, deleteCount, encodedLengths, data) =>
        var prev := PreviousRecord(d.rawRecords, id, log);
        var row := prev.(encodedLengths := encodedLengths, dynamicData := Splice(prev.dynamicData, start, deleteCount, data));
        Delta(d.rawRecords[id := row], d.updatedIds + [id], d.deletedIds)
      case DeleteRecord =>
        Delta(d.rawRecords - {id}, d.updatedIds, d.deletedIds + [id])
  }

  /**
   The logs applied one at a time, in list order, starting from `d`. The id
   lists only grow, by at most one id per log.
   */
  function ApplyLogs<Id, T>(tables: map<TableId, T>, getId: (TableId, KeyTuple) -> Id, d: Delta<Id>, logs: seq<StoreLog>): (r: Delta<Id>)
    ensures d.updatedIds <= r.updatedIds && d.deletedIds <= r.deletedIds
    ensures |r.updatedIds| + |r.deletedIds| <= |d.updatedIds| + |d.deletedIds| + |logs|
    decreases |logs|
  {
    if logs == [] then d
    else ApplyLog(tables, getId, ApplyLogs(tables, getId, d, logs[..|logs| - 1]), logs[|logs| - 1])
  }

  /** A batch starts from a copy of the raw rows and two empty id lists. */
  function StartBatch<Id>(rawRecords: map<Id, RawRecord<Id>>): (d: Delta<Id>)
  {
    Delta(rawRecords, [], [])
  }

  /** The decoded record of a raw row of a known table. */
  function Decode<Id, T, K, V>(tables: map<TableId, T>, dec: Decoder<T, K, V>, id: Id, row: RawRecord<Id>): (r: TableRecord<Id, T, K, V>)
    requires row.tableId in tables
  {
    var table := tables[row.tableId];
    TableRecord(id, table, row.keyTuple, dec.decodeKey(table, row.keyTuple),
                dec.decodeValue(table, row.staticData, row.encodedLengths, row.dynamicData))
  }

  /** True when an updated id can be decoded: it still has a raw row and that row's table is known. */
  predicate Decodable<Id, T>(tables: map<TableId, T>, rawRecords: map<Id, RawRecord<Id>>, id: Id)
  {
    id in rawRecords && rawRecords[id].tableId in tables
  }

  /** The callback mapped over `updatedIds`: no entry without a raw row or without a known table. */
  function Entry<Id, T, K, V>(tables: map<TableId, T>, dec: Decoder<T, K, V>, rawRecords: map<Id, RawRecord<Id>>, id: Id): (e: Option<TableRecord<Id, T, K, V>>)
  {
    if id !in rawRecords then None
    else if rawRecords[id].tableId !in tables then None
    else Some(Decode(tables, dec, id, rawRecords[id]))
  }

  /** `updatedIds.map(entry).filter(isDefined)`: the decoded entries, in the order of the ids. */
  function UpdatedEntries<Id, T, K, V>(tables: map<TableId, T>, dec: Decoder<T, K, V>, rawRecords: map<Id, RawRecord<Id>>, ids: seq<Id>): (es: seq<(Id, TableRecord<Id, T, K, V>)>)
    ensures forall k :: 0 <= k < |es| ==>
      es[k].0 in ids && Decodable(tables, rawRecords, es[k].0) && es[k].1 == Decode(tables, dec, es[k].0, rawRecords[es[k].0])
    ensures forall id :: id in ids && Decodable(tables, rawRecords, id) ==> exists k :: 0 <= k < |es| && es[k].0 == id
  {
    if ids == [] then []
    else
      var rest := UpdatedEntries(tables, dec, rawRecords, ids[1..]);
      match Entry(tables, dec, rawRecords, ids[0])
      case None => rest
      case Some(r) =>
        var es := [(ids[0], r)] + rest;
        assert es[0].0 == ids[0];
        assert forall k :: 0 <= k < |rest| ==> es[k + 1] == rest[k];
        es
  }

  /** `Object.fromEntries(es)`: one key per entry, a later entry overriding an earlier one. */
  function FromEntries<Id, R>(es: seq<(Id, R)>): (m: map<Id, R>)
    ensures forall k :: 0 <= k < |es| ==> es[k].0 in m
    ensures forall id :: id in m ==> exists k :: 0 <= k < |es| && es[k].0 == id && m[id] == es[k].1
  {
    if es == [] then map[]
    else
      var init := FromEntries(es[..|es| - 1]);
      assert forall k :: 0 <= k < |es| - 1 ==> es[..|es| - 1][k] == es[k];
      init[es[|es| - 1].0 := es[|es| - 1].1]
  }

  /** The value `Object.fromEntries` keeps for a key is that of its last entry. */
  lemma {:induction false} FromEntriesLastWins<Id, R>(es: seq<(Id, R)>, k: nat)
    requires k < |es| && forall j :: k < j < |es| ==> es[j].0 != es[k].0
    ensures FromEntries(es)[es[k].0] == es[k].1
    decreases |es|
  {
    if k < |es| - 1 {
      var prefix := es[..|es| - 1];
      assert prefix[k] == es[k];
      assert forall j :: k < j < |prefix| ==> prefix[j] == es[j];
      FromEntriesLastWins(prefix, k);
    }
  }

  /** The old records whose id was not deleted in the batch. */
  function KeptRecords<Id(!new), R>(records: map<Id, R>, deletedIds: seq<Id>): (m: map<Id, R>)
  {
    map id | id in records && id !in deletedIds :: records[id]
  }

  /**
   The projection after a batch: the kept old records, overridden by a fresh
   decode of every updated id that is still decodable.
   */
  function BuildRecords<Id(!new), T, K, V>(
    tables: map<TableId, T>, dec: Decoder<T, K, V>, rawRecords: map<Id, RawRecord<Id>>,
    records: map<Id, TableRecord<Id, T, K, V>>, updatedIds: seq<Id>, deletedIds: seq<Id>): (r: map<Id, TableRecord<Id, T, K, V>>)
    ensures forall id :: id in r <==>
      (id in records && id !in deletedIds) || (id in updatedIds && Decodable(tables, rawRecords, id))
    ensures forall id :: id in r && id in updatedIds && Decodable(tables, rawRecords, id) ==>
      r[id] == Decode(tables, dec, id, rawRecords[id])
    ensures forall id :: id in r && !(id in updatedIds && Decodable(tables, rawRecords, id)) ==>
      r[id] == records[id]
  {
    var decoded := FromEntries(UpdatedEntries(tables, dec, rawRecords, updatedIds));
    KeptRecords(records, deletedIds) + decoded
  }

  /**
   One call of the adapter: the logs are applied to a copy of the raw rows;
   if neither id list received an id the store keeps its state, otherwise the
   new raw rows and the rebuilt projection replace it together. A record that
   is new or changed after the call is the decode of its new raw row.
   */
  function ApplyBatch<Id(!new), T, K, V>(
    tables: map<TableId, T>, getId: (TableId, KeyTuple) -> Id, dec: Decoder<T, K, V>,
    s: Snapshot<Id, T, K, V>, logs: seq<StoreLog>): (r: Snapshot<Id, T, K, V>)
    ensures forall id :: id in r.records && (id !in s.records || r.records[id] != s.records[id]) ==>
      id in r.rawRecords && r.rawRecords[id].tableId in tables && r.records[id] == Decode(tables, dec, id, r.rawRecords[id])
  {
    var d := ApplyLogs(tables, getId, StartBatch(s.rawRecords), logs);
    if d.updatedIds == [] && d.deletedIds == [] then s
    else Snapshot(d.rawRecords, BuildRecords(tables, dec, d.rawRecords, s.records, d.updatedIds, d.deletedIds))
  }
}
