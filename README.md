# store-sync zustand storage adapter, in Dafny

This project models the storage adapter that `createStorageAdapter({ store })`
returns in `packages/store-sync/src/zustand/createStorageAdapter.ts`, and proves
properties of that model. The adapter is called with one block's logs. It keeps a
zustand store in step with an on-chain Store:

- It copies the store's `rawRecords`: the undecoded bytes of every row, keyed by
  row id.
- It applies the logs to the copy in order. A log is one of four events:
  `Store_SetRecord`, `Store_SpliceStaticData`, `Store_SpliceDynamicData` or
  `Store_DeleteRecord`. Logs for tables the store does not know are skipped.
- It records which ids were updated and which were deleted.
- If neither list received an id, it returns without writing.
- Otherwise it rebuilds the decoded projection `records` and writes both maps in
  one `setState`.

Files and modules:

- `hex.dfy` (`Hex`): hex values as byte sequences, and the splice the adapter
  applies to them.
- `store_sync.dfy` (`StoreSync`): the pure model.
  - The data: raw rows, store events and logs, decoded records.
  - `ApplyLog` is one pass of the event loop. `ApplyLogs` applies the logs in list
    order.
  - `BuildRecords` rebuilds the projection.
  - `ApplyBatch` is the whole adapter call, including the empty-delta short-circuit.
- `properties.dfy` (`BatchProperties`): lemmas about that model.
  - The effect of each event kind.
  - How batches compose.
  - The short-circuit.
  - Two invariants: raw rows stay well formed, and the projection stays the
    decode of the raw rows (`Synced`).
- `zustand.dfy` (`Zustand`): the imperative part.
  - `ReplayLogs` is the `for` loop. It updates the copied map in place and appends
    to the two id lists. It is proved to compute `ApplyLogs`.
  - `ZustandStore` is a class with the store state the adapter reads and writes.
  - `StorageAdapter` is the adapter. Its method `ZustandStorageAdapter` is proved
    to move the store to `ApplyBatch` of its old state.

Parameters stand in for code from other packages, which is not part of this model:

- `getId`: an arbitrary deterministic function from table id and key tuple to a
  row id.
- `Decoder.decodeKey`: stands for `decodeKey(flattenSchema(table.keySchema), keyTuple)`.
- `Decoder.decodeValue`: stands for
  `decodeValueArgs(flattenSchema(table.valueSchema), rawRecord)`, applied to the
  row's static data, encoded lengths and dynamic data.
- Ids, tables, decoded keys and decoded values are type parameters.

`spliceHex` comes from `@latticexyz/common` and is not part of this model. `Splice`
gives it this meaning: keep the first `start` bytes, then insert the new data, then
keep what follows the `deleteCount` deleted bytes. Within bounds this is
`s[..start] + data + s[start + deleteCount..]`, and every lemma about splices is
stated for that case. Out of bounds, `Splice` follows that library's `readHex`:
a prefix shorter than `start` is padded with zero bytes, and a suffix past the end
is empty. So the model never fails.

Three behaviours of the code differ from what a log applier is usually expected to do. The model follows the code:

- One might expect the two id lists to come back disjoint, with a deleted id
  removed from the updated list. The code never removes an id from `updatedIds`. After
  `Store_SetRecord` then `Store_DeleteRecord` on one id, that id is in both lists
  (`SetThenDelete`). The projection still ends up right, because the updated entry
  has no raw row and is skipped.
- One might expect a failed decode to skip only that row. The code does not catch
  decoder errors, so in the code an error would abort the whole call. The model's
  decoders are total (see Left out).
- One might expect a splice out of bounds to fail with a range error. The code has
  no such check. See `Splice` above.

## Model

| member | source | states |
|---|---|---|
| Hex.Splice | packages/store-sync/src/zustand/createStorageAdapter.ts:95 | Within bounds, the splice is prefix, then new data, then the bytes after the deleted range. It always has the prefix read at `start` and then `data`. Its length is `start` plus the length of `data` plus what remains after the deleted range. |
| Hex.ReadHex | packages/store-sync/src/zustand/createStorageAdapter.ts:73 | A part of `Splice`, which models `spliceHex` here and at line 95. Reading from `start` to `end` gives that many bytes: the byte of `s` at each offset, or zero past the end of `s`. |
| Hex.ReadHexFrom | packages/store-sync/src/zustand/createStorageAdapter.ts:95 | A part of `Splice`. Reading from `start` to the end gives what remains of `s` after `start`, and nothing when `start` is past the end. |
| Hex.SpliceLength | packages/store-sync/src/zustand/createStorageAdapter.ts:95 | A splice within bounds changes the length by the length of `data` minus `deleteCount`. |
| Hex.OverwriteKeepsLength | packages/store-sync/src/zustand/createStorageAdapter.ts:73 | A static splice, whose delete count is `size(data)`, keeps the length of static data that covers the range. |
| Hex.OverwriteFrame | packages/store-sync/src/zustand/createStorageAdapter.ts:73 | A static splice within bounds changes only the bytes in from `start` on, as many as `data` has, and those become `data`. |
| Hex.SpliceIntoEmpty | packages/store-sync/src/zustand/createStorageAdapter.ts:65-73 | Splicing into the empty placeholder at offset 0 gives exactly the new data. |
| StoreSync.Placeholder | packages/store-sync/src/zustand/createStorageAdapter.ts:65-72 | The row a splice starts from when the id has no raw row: the log's table id and key tuple and three empty byte fields. It has no contract of its own. Its use is stated by `SpliceStaticOnUnseenId`, `SpliceStaticEffect` and `SpliceDynamicEffect`. |
| StoreSync.PreviousRecord | packages/store-sync/src/zustand/createStorageAdapter.ts:86-93 | The existing raw row, or else the placeholder, at both splice events (also lines 65-72). It has no contract of its own. `SpliceStaticEffect` and `SpliceDynamicEffect` state that each splice starts from it. |
| StoreSync.ApplyLog | packages/store-sync/src/zustand/createStorageAdapter.ts:29-111 | One pass of the loop. Both id lists only grow at their ends. A log of a registered table adds exactly one id, and a log of an unknown table adds none. Every row other than the log's id is unchanged. The effect of each event kind is stated by `UnknownTableIsNoop`, `SetRecordEffect`, `SpliceStaticEffect`, `SpliceDynamicEffect` and `DeleteRecordEffect`. |
| StoreSync.ApplyLogs | packages/store-sync/src/zustand/createStorageAdapter.ts:28-112 | The whole loop. Both id lists only grow at their ends, by at most one id per log. `ApplyLogsAppend`, `DeltaCountsKnownLogs`, `ReplayFrame` and `ApplyLogsKeepsWellFormed` state the rest. |
| StoreSync.StartBatch | packages/store-sync/src/zustand/createStorageAdapter.ts:23-26 | The loop starts from a copy of the store's raw rows and two empty lists. It has no contract of its own. `ReplayFrame` and `Zustand.ReplayLogs` state what the loop computes from it. |
| StoreSync.Decode | packages/store-sync/src/zustand/createStorageAdapter.ts:132-140 | The record of a raw row: its id, its table, its key tuple, the decoded key and the decoded value. It has no contract of its own. `BuildRecords`, `BatchKeepsSynced` and `DeleteThenSet` state where it is used. |
| StoreSync.UpdatedEntries | packages/store-sync/src/zustand/createStorageAdapter.ts:118-143 | Every entry is for an updated, decodable id, and is that id's decode. Every updated, decodable id has an entry. |
| StoreSync.FromEntries | packages/store-sync/src/zustand/createStorageAdapter.ts:118-144 | `Object.fromEntries` has a key for every entry, and no other keys. Each value comes from an entry with that key. |
| StoreSync.FromEntriesLastWins | packages/store-sync/src/zustand/createStorageAdapter.ts:118-144 | For a key that appears more than once, the last entry's value wins. |
| StoreSync.BuildRecords | packages/store-sync/src/zustand/createStorageAdapter.ts:116-145 | An id is in the new projection exactly when one of two things holds: (a) it had a record and was not deleted; (b) it was updated and is still decodable. Case (b) gets the fresh decode. Case (a) keeps its old record. Its parts are `Entry`, the callback at lines 120-141, and `KeptRecords`, the filter at line 117. |
| StoreSync.ApplyBatch | packages/store-sync/src/zustand/createStorageAdapter.ts:114-147 | One call of the adapter. Every record that is new or changed after the call is the decode of its new raw row, and that row's table is registered. `EmptyBatchIsNoop`, `NoDeltaKeepsRawRecords`, `BatchRawRecordsAreReplay` and `BatchKeepsSynced` state the rest. |
| BatchProperties.UnknownTableIsNoop | packages/store-sync/src/zustand/createStorageAdapter.ts:29-38 | A log for an unregistered table leaves the raw rows and both id lists unchanged. |
| BatchProperties.UnknownTablesAreNoop | packages/store-sync/src/zustand/createStorageAdapter.ts:28-38 | A batch whose logs all name unregistered tables changes nothing. |
| BatchProperties.SetRecordEffect | packages/store-sync/src/zustand/createStorageAdapter.ts:42-57 | `Store_SetRecord` sets the row to exactly the event's table id, key tuple, static data, encoded lengths and dynamic data. It appends the id to `updatedIds`. All other rows and `deletedIds` are unchanged. |
| BatchProperties.SpliceStaticEffect | packages/store-sync/src/zustand/createStorageAdapter.ts:58-78 | `Store_SpliceStaticData` starts from the existing row, or from the placeholder. Only its static data changes, and `data` now sits at `start`. Within bounds the new static data is the splice and has the same length. The id is appended to `updatedIds`. All other rows are unchanged. |
| BatchProperties.SpliceStaticOnUnseenId | packages/store-sync/src/zustand/createStorageAdapter.ts:65-78 | On an id with no raw row, a static splice at offset 0 creates the row `(id, tableId, keyTuple, data, 0x, 0x)`. |
| BatchProperties.SpliceDynamicEffect | packages/store-sync/src/zustand/createStorageAdapter.ts:79-101 | `Store_SpliceDynamicData` starts from the existing row, or from the placeholder. The encoded lengths become the event's value. The dynamic data is spliced: within bounds it has length the old length minus `deleteCount` plus the length of `data`. The static data and all other rows are unchanged. The id is appended to `updatedIds`. |
| BatchProperties.DeleteRecordEffect | packages/store-sync/src/zustand/createStorageAdapter.ts:102-110 | `Store_DeleteRecord` removes the id from the raw rows, whether or not it was there. It appends the id to `deletedIds`. |
| BatchProperties.ApplyLogsAppend | packages/store-sync/src/zustand/createStorageAdapter.ts:28-112 | Applying `a + b` is the same as applying `a` and then `b`: the logs are applied one at a time, in list order. |
| BatchProperties.ApplyLogsSingle | packages/store-sync/src/zustand/createStorageAdapter.ts:28-112 | A one-log batch is one pass of the loop body. |
| BatchProperties.DeltaCountsKnownLogs | packages/store-sync/src/zustand/createStorageAdapter.ts:28-112 | Every log of a registered table appends exactly one id to one of the two lists. Lists are only appended to. |
| BatchProperties.ApplyLogKeepsReplayInvariant | packages/store-sync/src/zustand/createStorageAdapter.ts:40-110 | One log keeps the replay invariant. An id in neither list keeps its row. A deleted, never-updated id has no row. An updated id with no row was also deleted. |
| BatchProperties.ReplayFrame | packages/store-sync/src/zustand/createStorageAdapter.ts:26-112 | Every batch started from a copy of the raw rows satisfies the replay invariant. |
| BatchProperties.NoDeltaKeepsRawRecords | packages/store-sync/src/zustand/createStorageAdapter.ts:114 | When both lists are empty, the copied rows equal the store's. Skipping the write loses nothing. |
| BatchProperties.EmptyBatchIsNoop | packages/store-sync/src/zustand/createStorageAdapter.ts:114 | An empty list of logs leaves the store unchanged: the loop at lines 26-28 runs no pass, and the return at line 114 skips the write. |
| BatchProperties.BatchRawRecordsAreReplay | packages/store-sync/src/zustand/createStorageAdapter.ts:114-147 | After a call, the raw rows are the rows the loop computed, whether or not the short-circuit was taken. |
| BatchProperties.ApplyLogKeepsWellFormed | packages/store-sync/src/zustand/createStorageAdapter.ts:40-110 | One log keeps every raw row well formed: the row's table is registered, it sits under its own `id`, and that id is `getId` of its table id and key tuple. |
| BatchProperties.ApplyLogsKeepsWellFormed | packages/store-sync/src/zustand/createStorageAdapter.ts:28-112 | A whole batch keeps every raw row well formed. |
| BatchProperties.EmptyStoreIsSynced | packages/store-sync/src/zustand/createStorageAdapter.ts:116-145 | A store with no rows and no records is synced. |
| BatchProperties.BuildRecordsKeepsSynced | packages/store-sync/src/zustand/createStorageAdapter.ts:116-147 | Rebuilding the projection from raw rows that satisfy the replay invariant and are well formed gives a synced store. |
| BatchProperties.BatchKeepsSynced | packages/store-sync/src/zustand/createStorageAdapter.ts:114-147 | If the projection was the decode of the raw rows before a call, it still is afterwards: the same ids, and every record the decode of its row. |
| BatchProperties.SetThenDelete | packages/store-sync/src/zustand/createStorageAdapter.ts:109-124 | Set then delete of one id leaves the id in both lists, with no raw row and no record. |
| BatchProperties.DeleteThenSet | packages/store-sync/src/zustand/createStorageAdapter.ts:117-119 | Delete then set of one id leaves the set row, and that row's decode as the record. |
| BatchProperties.SingleLogBatch | packages/store-sync/src/zustand/createStorageAdapter.ts:20-147 | A one-log batch for a registered table delivers exactly its id in the matching list, and writes the rebuilt projection. |
| BatchProperties.BuildRecordsOneUpdate | packages/store-sync/src/zustand/createStorageAdapter.ts:116-145 | When the only updated id holds the only raw row and no other old record exists, the projection is exactly that row's decode. |
| BatchProperties.ScenarioSet | packages/store-sync/src/zustand/createStorageAdapter.ts:42-57 | On an empty store, setting static data `0x01` gives exactly one row and its decoded record. |
| BatchProperties.ScenarioSplice | packages/store-sync/src/zustand/createStorageAdapter.ts:58-78 | Splicing `0x02` at offset 0 turns that row's static data into `0x02`, and re-decodes it. |
| BatchProperties.ScenarioDelete | packages/store-sync/src/zustand/createStorageAdapter.ts:102-110 | Deleting the only row empties both maps. |
| BatchProperties.SetSpliceDeleteScenario | packages/store-sync/src/zustand/createStorageAdapter.ts:20-148 | The three batches above in sequence give the store states stated for each. |
| Zustand.ReplayLogs | packages/store-sync/src/zustand/createStorageAdapter.ts:23-112 | The loop's copied rows and two id lists equal `ApplyLogs` of the store's rows over the logs. |
| Zustand.ZustandStore.constructor | packages/store-sync/src/zustand/createStorageAdapter.ts:4 | A store starts with its registered tables and no raw rows or records. |
| Zustand.StorageAdapter.constructor | packages/store-sync/src/zustand/createStorageAdapter.ts:17-20 | The adapter is bound to its store and to the foreign helpers. |
| Zustand.StorageAdapter.ZustandStorageAdapter | packages/store-sync/src/zustand/createStorageAdapter.ts:20-148 | Writes only the raw rows and the records. The new state is `ApplyBatch` of the old. A synced store stays synced. A batch of unknown-table logs leaves the state unchanged. |

## Left out

- `ZustandStore` comes from `createStore` (`packages/store-sync/src/zustand/createStore.ts`, imported at line 4), which is not part of this model. The constructor's start state is registered tables, no raw rows and no records. This is assumed of `createStore`, not proved.
- `packages/store/ts/codegen/tightcoder/renderEncodeArray.ts` is a code generator for Solidity source, not part of the adapter. It is not modelled.
- The internals of `getId`, `decodeKey`, `decodeValueArgs`, `flattenSchema` and `spliceHex` are not part of this model. The first four are parameters. `Splice` gives `spliceHex` the meaning described above.
- Decoding errors: the model's decoders are total functions. In the code, an error thrown by `decodeKey` or `decodeValueArgs` would abort the call before `setState`.
- `debug(...)`, `console.warn`, `hexToResource` and `resourceToLabel` only format diagnostics. They are not modelled.
- The `async` wrapper, `blockNumber` and `log.address` do not affect the state and are left out. The zustand `getState`/`setState` plumbing becomes fields of `ZustandStore`, assigned once.
- The loop re-reads `store.getState().tables` on every iteration. Nothing writes the store during the loop, so the model reads the tables once.
- Hex strings are byte sequences: the `0x` prefix and odd-length strings are not modelled. `size(data)` is `|data|`.
- Letter case of hex strings is lost. In the code, `0xAB` and `0xab` are different object keys at lines 29, 49 and 121. In the model they are the same byte sequence. So the model does not capture a table id or row id that differs from another only in letter case.
- `start` and `deleteCount` are unbounded naturals. The event's 48-bit and 40-bit widths are not modelled, because no arithmetic on them can overflow a JavaScript number.
- The code's `else if` chain would ignore a log whose event name is none of the four. The log type admits only those four, so the model's event type has exactly four variants.
- Zustand.StorageAdapter.ZustandStorageAdapter: "the store is written at most once" shows in its body (one assignment to the two fields, or none). It is not stated in its contract.
