# Table renderer helpers and the memory storage adapter, in Dafny

This project models two small sequential cores of a host-application module that renders an editable, mergeable-cell table:

- **The table renderer's data helpers** (`src/modules/table_renderer.js`):
  - which cells of a view row get painted, given the view's cell-span map;
  - how an edit patch for one record is merged into the dataset;
  - how column settings are overlaid, and persisted settings completed with defaults;
  - the column order the settings panel shows, and its ← / → reordering;
  - how a schema is built from a journal template, and which template a journal without one gets.
- **The key-value storage port** (`src/storage/storage_iface.js`):
  - the capability check `assertStorage`;
  - the in-memory adapter `createMemoryStorage`, with `get`, `set`, `del` and prefix `list`.

Files:

- `wrappers.dfy`: `Option`, which stands for JavaScript's `null` / `undefined`.
- `json.dfy`: JavaScript values (`Json.Value`).
  - A plain object is a `map<string, Value>`.
  - Object spread `{ ...a, ...b }` is `Json.Overlay`: map union where the right side wins.
  - `{ ...(x ?? {}) }` is `Json.OwnProperties`.
- `table_renderer.dfy` (module `TableRenderer`):
  - Pure helpers are functions, with lemmas about them.
  - `getRenderableCells` is a method with a loop, proved equal to the function `RenderableCells`. The lemma `RenderableCellsExact` then states what the painted cells are.
  - The ← / → click handlers are methods. They copy the current order into a fresh array and swap two entries in place. They are proved against `LeftMoveOrder` / `RightMoveOrder`.
- `storage_iface.dfy` (module `StorageIface`):
  - `AssertStorage` is the check loop.
  - `Store` and the `Store*` functions are the memory store as a value.
  - `MemoryStorage` is a class whose fields are the store's `Map`. Its methods are proved against those functions.

The `Map` is modelled as a map plus the insertion order of its keys. JavaScript `Map`s iterate in insertion order, so that is the order `list` returns entries in.

Values are immutable Dafny values. A value handed to `set`, or one obtained from `get` or `list`, can therefore never alias the store's own copy. That is the guarantee the adapter's `structuredClone` calls give for those three operations. Seed values are not cloned in JavaScript, so the model is stronger there (see "## Left out").

## Model

| member | source | states |
|---|---|---|
| `TableRenderer.CellKey` | src/modules/table_renderer.js:4-6 | the key is the row id, a colon, then the column key |
| `TableRenderer.CellKeyInjective` | src/modules/table_renderer.js:4-6 | two cells whose row ids contain no colon share a key only if they are the same cell |
| `TableRenderer.CellKeyCollision` | src/modules/table_renderer.js:4-6 | row id `a:b` with column `c`, and row id `a` with column `b:c`, get the same key |
| `TableRenderer.GetRenderableCells` | src/modules/table_renderer.js:8-20 | the loop with `continue` yields exactly `RenderableCells` of the row, columns and span map |
| `TableRenderer.RenderableCellsExact` | src/modules/table_renderer.js:10-18 | the cells come in column order, one per column, omitting exactly the columns whose span entry has a truthy `coveredBy`; each cell carries its column key and the stored span, or `{rowSpan:1, colSpan:1}` when the map has no entry |
| `TableRenderer.RenderableCellsNoSpans` | src/modules/table_renderer.js:12-16 | with an empty span map every column gets one cell with the default span |
| `Json.Overlay` | src/modules/table_renderer.js:47-48 | object spread: all keys of both objects, the right one's values where it has the key, the left one's elsewhere |
| `Json.OverlayIdempotent` | src/modules/table_renderer.js:36-37 | spreading the same object on top twice equals spreading it once |
| `TableRenderer.UpdateDatasetWithPatch` | src/modules/table_renderer.js:29-41 | record count and order are kept; records whose id differs from `patch.recordId` are returned unchanged; a matching record keeps its id and other properties, and its `cells` / `fmt` become the old ones (absent = empty) overridden key by key by `cellsPatch` / `fmtPatch`; `merges` and the other dataset fields are untouched |
| `TableRenderer.UpdateWithoutTargetIsIdentity` | src/modules/table_renderer.js:32-33 | a patch whose target id no record has returns the dataset unchanged |
| `TableRenderer.UpdateIdempotent` | src/modules/table_renderer.js:29-41 | applying the same patch twice equals applying it once |
| `TableRenderer.EmptyPatchKeepsValues` | src/modules/table_renderer.js:36-37 | with neither `cellsPatch` nor `fmtPatch`, the matching record keeps every cell and fmt value (an absent object becomes `{}`) |
| `TableRenderer.NormalizeDataset` | src/modules/table_renderer.js:22-27 | `records` and `merges` are kept when they are arrays and become empty otherwise; every other input field is dropped |
| `TableRenderer.NormalizeIdempotent` | src/modules/table_renderer.js:22-27 | normalizing an already normalized dataset changes nothing |
| `TableRenderer.LoadSettings` | src/modules/table_renderer.js:116-118 | the stored object's fields override the initial settings key by key, and the defaults fill every other key |
| `TableRenderer.LoadSettingsHasDefaults` | src/modules/table_renderer.js:65-71 | loaded settings always contain the five default fields, with the default value where nothing was stored |
| `TableRenderer.LoadSettingsNothingStored` | src/modules/table_renderer.js:117 | when the store returns `null`, the settings are exactly the initial settings |
| `TableRenderer.LoadSettingsIdempotent` | src/modules/table_renderer.js:117 | loading settings that were themselves loaded gives them back unchanged |
| `TableRenderer.ApplyColumnSettings` | src/modules/table_renderer.js:43-51 | only `columns` changes; in it, the sub-keys present in `nextColumns` take their new values and every other sub-key keeps its old one |
| `TableRenderer.IsVisible` | src/modules/table_renderer.js:192 | a column is hidden if and only if `columns.visibility` is an object whose entry for its key is `false`; any other entry, or none, shows it |
| `TableRenderer.SetVisibility` | src/modules/table_renderer.js:193-197 | the checkbox rule's settings have the old fields plus `columns` and nothing else, every field other than `columns` unchanged; `columns` has the old sub-keys plus `visibility`, each other sub-key (`order`, `widths`, …) unchanged; `visibility` is the old visibility object (absent = empty) with the key set to the checkbox value, so that column shows as given and every other column as before |
| `TableRenderer.InitiallyVisible` | src/modules/table_renderer.js:192 | with the initial settings every column is visible |
| `TableRenderer.SetVisibilitySpec` | src/modules/table_renderer.js:192-197 | the checkbox rule, applied to given settings, sets that column's visibility, keeps every other column's visibility, and keeps the column order those settings show |
| `TableRenderer.ColumnOrder` | src/modules/table_renderer.js:176-179 | the shown order is `columns.order` when it is a non-empty array, else the schema's field keys |
| `TableRenderer.DefaultOrderIsSchemaOrder` | src/modules/table_renderer.js:65-66 | with the initial settings (`order: null`) the shown order is the schema's |
| `TableRenderer.IndexOf` | src/modules/table_renderer.js:213 | the position of the first equal entry, or -1 exactly when none is equal |
| `TableRenderer.Swap` | src/modules/table_renderer.js:216 | the two entries are exchanged, all others kept; the result is a permutation |
| `TableRenderer.LeftMoveOrder` | src/modules/table_renderer.js:212-218 | ← is a no-op exactly when the key is first or missing; otherwise it swaps the key with its left neighbour, giving a permutation that changes only those two places |
| `TableRenderer.RightMoveOrder` | src/modules/table_renderer.js:222-228 | → is a no-op exactly when the key is last or missing; otherwise it swaps the key with its right neighbour, giving a permutation that changes only those two places |
| `TableRenderer.MoveLeft` | src/modules/table_renderer.js:212-218 | the ← handler (array copy, swap in place) returns no change, or the settings with `columns.order` set to `LeftMoveOrder` of the shown order |
| `TableRenderer.MoveRight` | src/modules/table_renderer.js:222-228 | the → handler returns no change, or the settings with `columns.order` set to `RightMoveOrder` of the shown order |
| `TableRenderer.StoredOrderIsShown` | src/modules/table_renderer.js:177-179 | the order rule, applied to settings whose `columns.order` a move set to a non-empty list, yields exactly that list |
| `TableRenderer.LeftThenRightRestores` | src/modules/table_renderer.js:212-228 | the → rule applied to the order the ← rule produced, on the same key, gives back the original order |
| `TableRenderer.RightThenLeftRestores` | src/modules/table_renderer.js:212-228 | the ← rule applied to the order the → rule produced, on a key that occurs once, gives back the original order |
| `TableRenderer.SchemaFromTemplate` | src/modules/table_renderer.js:77-83 | the id is `tpl:` + the template's id, or `tpl:__none__` when there is no usable id; there is one `text` field per template column, in order, with the same key and label; a non-array `columns` gives no fields |
| `TableRenderer.SchemaSentinelId` | src/modules/table_renderer.js:80 | the schema id is the sentinel exactly when the template has no usable id or its id is literally `__none__` |
| `TableRenderer.SchemaKeysFromTemplate` | src/modules/table_renderer.js:81 | the schema's field keys are the template's column keys, in order |
| `TableRenderer.FindTemplate` | src/modules/table_renderer.js:97 | `find` returns the first listed entry with the searched id, or none when no entry has it |
| `TableRenderer.DefaultTemplateId` | src/modules/table_renderer.js:97 | `test` when some entry has that id; else the first entry's id when it is non-empty; else none |
| `TableRenderer.FindJournal` | src/modules/table_renderer.js:88 | the first journal whose id equals the active id (no earlier one has it), or none when no journal has it |
| `TableRenderer.ActiveJournal` | src/modules/table_renderer.js:86-88 | the active journal is the first listed journal with the active id, and exists whenever one is listed |
| `TableRenderer.ResolvedTemplateId` | src/modules/table_renderer.js:89-99 | the journal's own template id when it has one; the default choice for an active journal without one; none without an active journal |
| `TableRenderer.ResolveSchema` | src/modules/table_renderer.js:85-112 | without a template service, or with no template id resolved, the schema is the empty sentinel `{id:'tpl:__none__', fields:[]}`; otherwise it is built from the fetched template |
| `TableRenderer.ResolveSchemaPrefersTest` | src/modules/table_renderer.js:94-99 | an active journal without a template is shown with the `test` template whenever one is listed |
| `StorageIface.AssertStorage` | src/storage/storage_iface.js:1-8 | passes if and only if `get`, `set` and `del` are all functions; otherwise the error names the first one missing, in that order |
| `StorageIface.RequiredMethodsSuffice` | src/storage/storage_iface.js:2 | `list` is not required; the memory adapter passes the check |
| `StorageIface.RemoveKey` | src/storage/storage_iface.js:20 | the key order keeps exactly the keys other than the deleted one |
| `StorageIface.RemoveKeyAt` | src/storage/storage_iface.js:20 | removing the key at position `p` of a duplicate-free order gives the keys before `p` followed by those after it, in their order |
| `StorageIface.DelKeepsOrder` | src/storage/storage_iface.js:19-26 | `del` of a stored key leaves the other keys in their insertion order, which `list` follows |
| `StorageIface.GetAfterSet` | src/storage/storage_iface.js:13-18 | after `set(k, v)`, `get(k)` gives `v` and every other key reads as before |
| `StorageIface.GetAfterDel` | src/storage/storage_iface.js:13-21 | after `del(k)`, `get(k)` gives `null` and every other key reads as before |
| `StorageIface.DelAbsentIsNoop` | src/storage/storage_iface.js:19-21 | deleting a key that is not stored leaves the store unchanged, order included |
| `StorageIface.SetDelKeepValid` | src/storage/storage_iface.js:16-21 | `set` and `del` keep the key order listing every stored key exactly once |
| `StorageIface.SeedValid` | src/storage/storage_iface.js:11 | a store built from seed entries is well formed |
| `StorageIface.SeedReadable` | src/storage/storage_iface.js:11-14 | every seed entry not overridden by a later one with the same key is readable right after creation |
| `StorageIface.SeedAbsent` | src/storage/storage_iface.js:11-14 | a key in no seed entry reads as `null` right after creation |
| `StorageIface.ListExact` | src/storage/storage_iface.js:22-26 | the listed entries are exactly the stored ones whose key starts with the prefix, each key once, with its stored value |
| `StorageIface.StoreListExact` | src/storage/storage_iface.js:22-26 | a key is listed if and only if it is stored and starts with the prefix |
| `StorageIface.ListAll` | src/storage/storage_iface.js:22 | `list('')` returns every entry, in insertion order |
| `StorageIface.MemoryStorage.constructor` | src/storage/storage_iface.js:10-11 | the new store holds the seed entries set one after the other, as `new Map(entries)` does |
| `StorageIface.MemoryStorage.Get` | src/storage/storage_iface.js:13-15 | returns the stored value, or none when the key is not stored |
| `StorageIface.MemoryStorage.Set` | src/storage/storage_iface.js:16-18 | the new state is `StoreSet` of the old one: the new value at the key, a new key appended to the order |
| `StorageIface.MemoryStorage.Del` | src/storage/storage_iface.js:19-21 | the new state is `StoreDel` of the old one: the key is gone from the map and from the order |
| `StorageIface.MemoryStorage.List` | src/storage/storage_iface.js:22-26 | returns `StoreList` of the current state |

## Left out

- The view-computation engine (`createTableEngine`: compute, expand, edit session, selection, add form) and the cell formatter (`formatCell`, `parseInput`). They live in `table_engine.js` and `table_formatter.js`, which are not part of this model.
- All DOM construction and event wiring: `createModal`, `rerender`, `renderPanelFactory`, the element building in `columnSettingsUI`, and the add-row form and modal. They are presentation.
- Module registration in `init`, and the module-level flags `engine`, `currentSchemaId` and `selectionMode`. They are host glue.
- `buildHeaderTitle` is presentation text.
- Async behaviour and I/O are not modelled; every operation is synchronous. The I/O this leaves out:
  - the storage calls of `loadSettings`, `saveSettings`, `loadDataset` and `saveDataset`, including the choice between the table store and the single-key fallback;
  - `resolveSchema`'s calls to `getState`, `listTemplateEntities` and `getTemplate`, which are passed in as parameters;
  - the `commit` that persists the chosen default template.
- The width handler (`Number(widthInput.value) || null`) depends on JavaScript number coercion and `NaN`.
- Numbers are integers: floating point, `NaN` and `-0` are not modelled.
- `Json.OwnProperties`: spreading a string or an array copies its index keys in JavaScript. The model copies nothing from any non-object. This can only matter where a string or an array stands in one of three places: the `columns` field, `columns.visibility`, or a stored settings blob. For `columns.visibility` both reading and spreading differ. JavaScript indexes an array by position, so `visibility: [false]` hides the column keyed `"0"`; `TableRenderer.IsVisible` shows it. When the checkbox rule spreads the array, it copies the index keys, and `TableRenderer.SetVisibility` drops them.
- `TableRenderer.IndexOf`: `indexOf` compares object and array entries by identity. The model compares by value. The two differ only for an order holding two structurally equal object entries.
- Record, patch, template, journal and template-summary ids are optional strings. Ids of other types are not modelled.
- `None` stands for both `null` and `undefined`, so the model matches ids more often than `===` does:
  - a record without an id matches a patch without a `recordId`, which JavaScript also does (`undefined === undefined`);
  - a record without an id also matches a patch whose `recordId` is `null`, which JavaScript does not (`undefined === null` is false);
  - likewise, a journal without an id is found for an `activeJournalId` of `null`, which JavaScript's `find` does not do.
- Not modelled: `cells` or `fmt` that are present but not objects; array elements of `records` that are not record-shaped; a `null` template-list entry, which makes `find` throw at src/modules/table_renderer.js:97 when `find` reaches it (an earlier match returns first); a `null` entry of `state.journals`, which likewise makes `j.id` throw in the `find` at src/modules/table_renderer.js:88 when `find` reaches it (journals are modelled as records, so the model has no such entry).
- `normalizeDataset(null)` throws in JavaScript. Its callers never pass `null`, so the model has no case for it.
- `TableRenderer.SchemaFromTemplate`: a `null` or `undefined` element of `template.columns` makes `c.key` throw in JavaScript (src/modules/table_renderer.js:81). Template columns are modelled as records, so the model has no such element and no such failure.
- `StorageIface.MemoryStorage.constructor`: `createMemoryStorage(null)` throws in JavaScript, since the default `{}` replaces only `undefined` and `Object.entries(null)` throws (src/storage/storage_iface.js:10-11). The seed is modelled as a list of entries, so this failure is not modelled.
- The settings panel's handlers are modelled as pure rules on the settings they are given. In JavaScript each handler works from the `settings` and `ordered` captured when the panel was built (src/modules/table_renderer.js:177-179, 194-227), and saving only refreshes the table (src/modules/table_renderer.js:461-466), never the panel. So a second change in the same panel starts from the old settings and can undo the first one. The model does not capture this staleness.
- `StorageIface.MemoryStorage.Get`: a stored `null` reads back as `null` in JavaScript, the same value a missing key gives. The model returns `Some(Null)` for it, keeping the two apart.
- `structuredClone` failing on values that cannot be cloned, such as functions, is not modelled.
- The seed object's entries are taken in the order `Object.entries` lists them. JavaScript's rule for that order, integer-like keys first, is not modelled.
- `StorageIface.MemoryStorage.constructor`: the seed's values go into the `Map` without `structuredClone` (src/storage/storage_iface.js:11), so the store shares the seed's nested objects: changing `seed.a.n` after creation changes what `get('a')` returns. The model's store holds immutable copies and does not capture this sharing.
- `StorageIface.MemoryStorage`: keys are strings only. A JavaScript `Map` also accepts `set(1, v)`, after which `list` throws at src/storage/storage_iface.js:24 because a number has no `startsWith`. The model has no non-string keys, and so no such failure.
- `TableRenderer.IsVisible`, `TableRenderer.SetVisibility`: modelled for string column keys only. Column keys elsewhere in the model are arbitrary values (`Field.key`, `TemplateColumn.key`, the entries of `ColumnOrder`), and JavaScript converts a non-string key to a property name (`visibility[1]` reads and `{[1]: …}` writes `"1"`). The model has no checkbox rule for non-string keys.
