/**
  The pure data-transformation helpers of the table renderer module: which
  cells of a row are painted, how a one-record patch is merged into a
  dataset, how column settings are overlaid and reordered, how persisted
  settings are completed with defaults, and how a schema is derived from a
  journal template.
 */
module TableRenderer {
  import opened Wrappers
  import opened Json

  // ---------------------------------------------------------------------
  // Cell keys
  // ---------------------------------------------------------------------

  /** The lookup key of the cell at (rowId, colKey) in a cell-span map. */
  function CellKey(rowId: string, colKey: string): (key: string)
    ensures |key| == |rowId| + 1 + |colKey|
    ensures key[..|rowId|] == rowId && key[|rowId|] == ':' && key[|rowId| + 1..] == colKey
  {
    rowId + ":" + colKey
  }

  /** As long as row ids contain no ':', a cell key names exactly one cell. */
  lemma CellKeyInjective(r1: string, c1: string, r2: string, c2: string)
    requires ':' !in r1 && ':' !in r2
    requires CellKey(r1, c1) == CellKey(r2, c2)
    ensures r1 == r2 && c1 == c2
  {
  }

  /** Without that restriction two different cells can share a key. */
  lemma CellKeyCollision()
    ensures CellKey("a:b", "c") == CellKey("a", "b:c")
  {
  }

  // ---------------------------------------------------------------------
  // Renderable cells of one row
  // ---------------------------------------------------------------------

  /** A span entry of the view's cell-span map; `coveredBy` names the anchor
      cell whose merge hides this one. */
  datatype Span = Span(rowSpan: int, colSpan: int, coveredBy: Option<string>)

  /** The span given to a cell the map says nothing about. */
  const DefaultSpan: Span := Span(1, 1, None)

  /** `span?.coveredBy` is truthy. */
  predicate IsCovered(span: Span)
  {
    span.coveredBy.Some? && Truthy(Str(span.coveredBy.value))
  }

  /** The parts of a view row and a view column that rendering reads. */
  datatype ViewRow = ViewRow(rowId: string)
  datatype ViewColumn = ViewColumn(columnKey: string)

  /** One cell to paint: its column and the span to paint it with. */
  datatype RenderCell = RenderCell(colKey: string, span: Span)

  type CellSpanMap = map<string, Span>

  /** `cellSpanMap.get(cellKey(row.rowId, column.columnKey))`. */
  function SpanAt(row: ViewRow, column: ViewColumn, spans: CellSpanMap): Option<Span>
  {
    var key := CellKey(row.rowId, column.columnKey);
    if key in spans then Some(spans[key]) else None
  }

  predicate CoveredAt(row: ViewRow, column: ViewColumn, spans: CellSpanMap)
  {
    var span := SpanAt(row, column, spans);
    span.Some? && IsCovered(span.value)
  }

  /** The span a painted cell gets: the stored one, else the default. */
  function SpanOrDefault(row: ViewRow, column: ViewColumn, spans: CellSpanMap): Span
  {
    var span := SpanAt(row, column, spans);
    if span.Some? then span.value else DefaultSpan
  }

  /** The cells of `row` to paint, column by column. */
  function RenderableCells(row: ViewRow, columns: seq<ViewColumn>, spans: CellSpanMap): seq<RenderCell>
    decreases |columns|
  {
    if columns == [] then []
    else
      var rest := RenderableCells(row, columns[..|columns| - 1], spans);
      var column := columns[|columns| - 1];
      if CoveredAt(row, column, spans) then rest
      else rest + [RenderCell(column.columnKey, SpanOrDefault(row, column, spans))]
  }

  /** `getRenderableCells`: walks the columns, skips covered cells and
      collects the others with their span. */
  method GetRenderableCells(row: ViewRow, columns: seq<ViewColumn>, spans: CellSpanMap)
    returns (cells: seq<RenderCell>)
    ensures cells == RenderableCells(row, columns, spans)
  {
    cells := [];
    for i := 0 to |columns|
      invariant cells == RenderableCells(row, columns[..i], spans)
    {
      assert columns[..i + 1][..i] == columns[..i];
      var column := columns[i];
      var key := CellKey(row.rowId, column.columnKey);
      var span: Option<Span> := if key in spans then Some(spans[key]) else None;
      if span.Some? && IsCovered(span.value) {
        continue;
      }
      cells := cells + [RenderCell(column.columnKey, if span.Some? then span.value else DefaultSpan)];
    }
    assert columns[..|columns|] == columns;
  }

  /** `idx` lists, in increasing order, exactly the positions of the columns
      that are not covered, and `cells` holds one cell per listed column with
      that column's key and its stored span (or the default span). */
  ghost predicate PaintsExactly(row: ViewRow, columns: seq<ViewColumn>, spans: CellSpanMap,
                                cells: seq<RenderCell>, idx: seq<int>)
  {
    && |idx| == |cells|
    && (forall k :: 0 <= k < |idx| ==> 0 <= idx[k] < |columns|)
    && (forall j, k :: 0 <= j < k < |idx| ==> idx[j] < idx[k])
    && (forall i :: 0 <= i < |columns| ==> (i in idx <==> !CoveredAt(row, columns[i], spans)))
    && (forall k :: 0 <= k < |idx| ==>
          cells[k] == RenderCell(columns[idx[k]].columnKey, SpanOrDefault(row, columns[idx[k]], spans)))
  }

  /** The renderable cells are, in column order, one per column except
      exactly the covered ones. */
  lemma {:induction false} RenderableCellsExact(row: ViewRow, columns: seq<ViewColumn>, spans: CellSpanMap)
    ensures exists idx :: PaintsExactly(row, columns, spans, RenderableCells(row, columns, spans), idx)
  {
    var idx := PaintedIndices(row, columns, spans);
  }

  /** The witness for `RenderableCellsExact`, built column by column. */
  lemma {:induction false} PaintedIndices(row: ViewRow, columns: seq<ViewColumn>, spans: CellSpanMap)
    returns (idx: seq<int>)
    ensures PaintsExactly(row, columns, spans, RenderableCells(row, columns, spans), idx)
    decreases |columns|
  {
    if columns == [] {
      return [];
    }
    var n := |columns|;
    var prefix := columns[..n - 1];
    var idx0 := PaintedIndices(row, prefix, spans);
    var rest := RenderableCells(row, prefix, spans);
    assert forall i :: 0 <= i < n - 1 ==> prefix[i] == columns[i];
    if CoveredAt(row, columns[n - 1], spans) {
      idx := idx0;
      forall i | 0 <= i < n
        ensures i in idx <==> !CoveredAt(row, columns[i], spans)
      {
        if i < n - 1 {
          assert prefix[i] == columns[i];
        }
      }
      forall k | 0 <= k < |idx|
        ensures rest[k] == RenderCell(columns[idx[k]].columnKey, SpanOrDefault(row, columns[idx[k]], spans))
      {
        assert prefix[idx0[k]] == columns[idx0[k]];
      }
    } else {
      idx := idx0 + [n - 1];
      var cells := rest + [RenderCell(columns[n - 1].columnKey, SpanOrDefault(row, columns[n - 1], spans))];
      assert cells == RenderableCells(row, columns, spans);
      forall i | 0 <= i < n
        ensures i in idx <==> !CoveredAt(row, columns[i], spans)
      {
        if i < n - 1 {
          assert prefix[i] == columns[i];
          assert i in idx <==> i in idx0;
        }
      }
      forall k | 0 <= k < |idx|
        ensures cells[k] == RenderCell(columns[idx[k]].columnKey, SpanOrDefault(row, columns[idx[k]], spans))
      {
        if k < |idx0| {
          assert cells[k] == rest[k] && idx[k] == idx0[k];
          assert prefix[idx0[k]] == columns[idx0[k]];
        }
      }
    }
  }

  /** With an empty span map every column gets one cell with the default span. */
  lemma {:induction false} RenderableCellsNoSpans(row: ViewRow, columns: seq<ViewColumn>)
    ensures RenderableCells(row, columns, map[]) ==
            seq(|columns|, i requires 0 <= i < |columns| => RenderCell(columns[i].columnKey, DefaultSpan))
    decreases |columns|
  {
    if columns != [] {
      RenderableCellsNoSpans(row, columns[..|columns| - 1]);
    }
  }

  // ---------------------------------------------------------------------
  // Datasets and patches
  // ---------------------------------------------------------------------

  /** A declared merge of the dataset (passed along untouched here). */
  datatype Merge = Merge(rowId: string, colKey: string, rowSpan: int, colSpan: int)

  /** A record; `cells` and `fmt` may be absent, `rest` holds its other
      properties (such as `parentId`). */
  datatype Record = Record(id: Option<string>, cells: Option<Object>, fmt: Option<Object>, rest: Object)

  /** A dataset; `rest` holds any properties besides `records` and `merges`. */
  datatype Dataset = Dataset(records: seq<Record>, merges: seq<Merge>, rest: Object)

  /** An edit patch aimed at one record. */
  datatype Patch = Patch(recordId: Option<string>, cellsPatch: Option<Object>, fmtPatch: Option<Object>)

  /** `m ?? {}`. */
  function OrEmpty(m: Option<Object>): Object
  {
    if m.Some? then m.value else map[]
  }

  /** `after` is `before` with its cells and fmt overridden key by key by the
      patch, every other property kept. */
  ghost predicate PatchedFrom(before: Record, after: Record, patch: Patch)
  {
    && after.id == before.id
    && after.rest == before.rest
    && after.cells.Some? && Overrides(OrEmpty(before.cells), OrEmpty(patch.cellsPatch), after.cells.value)
    && after.fmt.Some? && Overrides(OrEmpty(before.fmt), OrEmpty(patch.fmtPatch), after.fmt.value)
  }

  function PatchRecord(record: Record, patch: Patch): Record
  {
    if record.id != patch.recordId then record
    else record.(cells := Some(Overlay(OrEmpty(record.cells), OrEmpty(patch.cellsPatch))),
                 fmt := Some(Overlay(OrEmpty(record.fmt), OrEmpty(patch.fmtPatch))))
  }

  /** `updateDatasetWithPatch`: the records keep their number and order,
      those with another id are returned as they are, the matching ones get
      the patch merged in; merges and the other dataset fields are untouched. */
  function UpdateDatasetWithPatch(dataset: Dataset, patch: Patch): (r: Dataset)
    ensures r.merges == dataset.merges && r.rest == dataset.rest
    ensures |r.records| == |dataset.records|
    ensures forall i :: 0 <= i < |r.records| && dataset.records[i].id != patch.recordId ==>
              r.records[i] == dataset.records[i]
    ensures forall i :: 0 <= i < |r.records| && dataset.records[i].id == patch.recordId ==>
              PatchedFrom(dataset.records[i], r.records[i], patch)
  {
    dataset.(records := seq(|dataset.records|, i requires 0 <= i < |dataset.records| => PatchRecord(dataset.records[i], patch)))
  }

  /** A patch whose target id no record has leaves the dataset as it is. */
  lemma UpdateWithoutTargetIsIdentity(dataset: Dataset, patch: Patch)
    requires forall i :: 0 <= i < |dataset.records| ==> dataset.records[i].id != patch.recordId
    ensures UpdateDatasetWithPatch(dataset, patch) == dataset
  {
  }

  /** Applying the same patch twice is applying it once. */
  lemma UpdateIdempotent(dataset: Dataset, patch: Patch)
    ensures UpdateDatasetWithPatch(UpdateDatasetWithPatch(dataset, patch), patch) == UpdateDatasetWithPatch(dataset, patch)
  {
    var once := UpdateDatasetWithPatch(dataset, patch);
    var twice := UpdateDatasetWithPatch(once, patch);
    forall i | 0 <= i < |once.records|
      ensures twice.records[i] == once.records[i]
    {
      var rec := dataset.records[i];
      if rec.id == patch.recordId {
        OverlayIdempotent(OrEmpty(rec.cells), OrEmpty(patch.cellsPatch));
        OverlayIdempotent(OrEmpty(rec.fmt), OrEmpty(patch.fmtPatch));
      }
    }
    assert twice.records == once.records;
  }

  /** A patch with neither cellsPatch nor fmtPatch keeps every cell value
      (an absent cells or fmt object becomes an empty one). */
  lemma EmptyPatchKeepsValues(dataset: Dataset, patch: Patch, i: int)
    requires patch.cellsPatch.None? && patch.fmtPatch.None?
    requires 0 <= i < |dataset.records| && dataset.records[i].id == patch.recordId
    ensures UpdateDatasetWithPatch(dataset, patch).records[i].cells == Some(OrEmpty(dataset.records[i].cells))
    ensures UpdateDatasetWithPatch(dataset, patch).records[i].fmt == Some(OrEmpty(dataset.records[i].fmt))
  {
    var rec := dataset.records[i];
    OverlayEmpty(OrEmpty(rec.cells));
    OverlayEmpty(OrEmpty(rec.fmt));
  }

  /** One property of the object handed to `normalizeDataset`: absent, an
      array, or some other value. */
  datatype RawField<T> = Missing | ArrayValue(items: seq<T>) | NotAnArray

  /** The object handed to `normalizeDataset` (`{}` when nothing is passed). */
  datatype RawDataset = RawDataset(records: RawField<Record>, merges: RawField<Merge>, rest: Object)

  function ArrayOrEmpty<T>(f: RawField<T>): seq<T>
  {
    if f.ArrayValue? then f.items else []
  }

  /** `normalizeDataset`: keeps `records` and `merges` when they are arrays,
      replaces them by empty arrays otherwise, and drops every other field. */
  function NormalizeDataset(input: RawDataset): (d: Dataset)
    ensures input.records.ArrayValue? ==> d.records == input.records.items
    ensures !input.records.ArrayValue? ==> d.records == []
    ensures input.merges.ArrayValue? ==> d.merges == input.merges.items
    ensures !input.merges.ArrayValue? ==> d.merges == []
    ensures d.rest == map[]
  {
    Dataset(ArrayOrEmpty(input.records), ArrayOrEmpty(input.merges), map[])
  }

  /** The raw form of a dataset that is already well-shaped. */
  function AsRaw(d: Dataset): RawDataset
  {
    RawDataset(ArrayValue(d.records), ArrayValue(d.merges), d.rest)
  }

  /** Normalizing a normalized dataset changes nothing. */
  lemma NormalizeIdempotent(input: RawDataset)
    ensures NormalizeDataset(AsRaw(NormalizeDataset(input))) == NormalizeDataset(input)
  {
  }

  // ---------------------------------------------------------------------
  // Settings
  // ---------------------------------------------------------------------

  /** User display settings: an object whose known fields are `columns`,
      `sort`, `filter`, `expandedRowIds` and `selectedRowIds`. */
  type Settings = Object

  const InitialColumns: Object :=
    map["order" := Null, "visibility" := Obj(map[]), "widths" := Obj(map[])]

  const InitialSettings: Settings :=
    map[
      "columns" := Obj(InitialColumns),
      "sort" := Null,
      "filter" := Obj(map["global" := Str("")]),
      "expandedRowIds" := Arr([]),
      "selectedRowIds" := Arr([])
    ]

  /** `loadSettings`, given what the store returned (`Null` when nothing is
      stored): the stored object's fields win, the defaults fill the rest. */
  function LoadSettings(stored: Value): (s: Settings)
    ensures Overrides(InitialSettings, OwnProperties(stored), s)
  {
    Overlay(InitialSettings, OwnProperties(stored))
  }

  /** Loaded settings always carry all default fields. */
  lemma LoadSettingsHasDefaults(stored: Value)
    ensures InitialSettings.Keys <= LoadSettings(stored).Keys
    ensures forall k :: k in InitialSettings && k !in OwnProperties(stored) ==> LoadSettings(stored)[k] == InitialSettings[k]
  {
  }

  /** Nothing stored means exactly the defaults. */
  lemma LoadSettingsNothingStored()
    ensures LoadSettings(Null) == InitialSettings
  {
  }

  /** Completing settings that were already completed with the defaults
      gives them back unchanged. */
  lemma LoadSettingsIdempotent(stored: Value)
    ensures LoadSettings(Obj(LoadSettings(stored))) == LoadSettings(stored)
  {
  }

  /** `applyColumnSettings`: replaces the `columns` sub-keys present in
      `nextColumns`, keeps its other sub-keys and every other settings field. */
  function ApplyColumnSettings(settings: Settings, nextColumns: Object): (r: Settings)
    ensures r.Keys == settings.Keys + {"columns"}
    ensures forall k :: k in settings && k != "columns" ==> k in r && r[k] == settings[k]
    ensures r["columns"].Obj? && Overrides(OwnProperties(Get(settings, "columns")), nextColumns, r["columns"].fields)
  {
    settings["columns" := Obj(Overlay(OwnProperties(Get(settings, "columns")), nextColumns))]
  }

  /** `settings.columns?.[name]`. */
  function ColumnsProperty(settings: Settings, name: string): Value
  {
    var columns := Get(settings, "columns");
    if columns.Obj? then Get(columns.fields, name) else Undefined
  }

  /** `settings.columns?.visibility?.[key] !== false`. */
  function IsVisible(settings: Settings, key: string): (visible: bool)
    ensures !visible ==>
              ColumnsProperty(settings, "visibility").Obj? &&
              Get(ColumnsProperty(settings, "visibility").fields, key) == Bool(false)
    ensures (ColumnsProperty(settings, "visibility").Obj? &&
             Get(ColumnsProperty(settings, "visibility").fields, key) == Bool(false)) ==> !visible
  {
    var visibility := ColumnsProperty(settings, "visibility");
    !(visibility.Obj? && Get(visibility.fields, key) == Bool(false))
  }

  /** The visibility checkbox handler for column `key`. */
  function SetVisibility(settings: Settings, key: string, visible: bool): (r: Settings)
    ensures r.Keys == settings.Keys + {"columns"}
    ensures r["columns"].Obj? &&
            r["columns"].fields.Keys == OwnProperties(Get(settings, "columns")).Keys + {"visibility"} &&
            r["columns"].fields["visibility"].Obj? &&
            Overrides(OwnProperties(ColumnsProperty(settings, "visibility")), map[key := Bool(visible)],
                      r["columns"].fields["visibility"].fields)
    ensures IsVisible(r, key) == visible
    ensures forall other :: other != key ==> IsVisible(r, other) == IsVisible(settings, other)
    ensures forall k :: k in settings && k != "columns" ==> k in r && r[k] == settings[k]
    ensures "columns" in r && r["columns"].Obj? &&
            forall k :: k in OwnProperties(Get(settings, "columns")) && k != "visibility" ==>
              k in r["columns"].fields && r["columns"].fields[k] == OwnProperties(Get(settings, "columns"))[k]
  {
    ApplyColumnSettings(settings,
      map["visibility" := Obj(OwnProperties(ColumnsProperty(settings, "visibility"))[key := Bool(visible)])])
  }

  /** With the initial settings every column is visible. */
  lemma InitiallyVisible(key: string)
    ensures IsVisible(LoadSettings(Null), key)
  {
  }

  /** The checkbox rule, applied to given settings, sets that column's
      visibility and keeps every other column's visibility and the column
      order those settings give. */
  lemma SetVisibilitySpec(settings: Settings, schema: Schema, key: string, visible: bool, other: string)
    requires other != key
    ensures IsVisible(SetVisibility(settings, key, visible), key) == visible
    ensures IsVisible(SetVisibility(settings, key, visible), other) == IsVisible(settings, other)
    ensures ColumnOrder(SetVisibility(settings, key, visible), schema) == ColumnOrder(settings, schema)
  {
  }

  // ---------------------------------------------------------------------
  // Column order and the ←/→ handlers
  // ---------------------------------------------------------------------

  /** A schema field; `key` and `label` are copied from a template column. */
  datatype Field = Field(key: Value, labelText: Value, kind: string)

  datatype Schema = Schema(id: string, fields: seq<Field>)

  function SchemaKeys(schema: Schema): seq<Value>
  {
    seq(|schema.fields|, i requires 0 <= i < |schema.fields| => schema.fields[i].key)
  }

  /** The order the settings panel shows: the stored `columns.order` when it is
      a non-empty array, else the schema's field keys. */
  function ColumnOrder(settings: Settings, schema: Schema): (ordered: seq<Value>)
    ensures ColumnsProperty(settings, "order").Arr? && |ColumnsProperty(settings, "order").items| > 0 ==>
              ordered == ColumnsProperty(settings, "order").items
    ensures !(ColumnsProperty(settings, "order").Arr? && |ColumnsProperty(settings, "order").items| > 0) ==>
              ordered == SchemaKeys(schema)
  {
    var order := ColumnsProperty(settings, "order");
    if order.Arr? && |order.items| > 0 then order.items else SchemaKeys(schema)
  }

  /** With default settings the order is the schema's. */
  lemma DefaultOrderIsSchemaOrder(schema: Schema)
    ensures ColumnOrder(LoadSettings(Null), schema) == SchemaKeys(schema)
  {
  }

  /** `Array.prototype.indexOf` with `===` read as value equality. */
  function IndexOf(s: seq<Value>, x: Value): (i: int)
    ensures -1 <= i < |s|
    ensures 0 <= i ==> s[i] == x && forall j :: 0 <= j < i ==> s[j] != x
    ensures i == -1 ==> forall j :: 0 <= j < |s| ==> s[j] != x
    decreases |s|
  {
    if s == [] then -1
    else if s[0] == x then 0
    else
      var j := IndexOf(s[1..], x);
      if j < 0 then -1 else j + 1
  }

  /** `s` with the entries at `i` and `j` exchanged. */
  function Swap(s: seq<Value>, i: int, j: int): (r: seq<Value>)
    requires 0 <= i < |s| && 0 <= j < |s|
    ensures |r| == |s| && r[i] == s[j] && r[j] == s[i]
    ensures forall k :: 0 <= k < |s| && k != i && k != j ==> r[k] == s[k]
    ensures multiset(r) == multiset(s)
  {
    s[i := s[j]][j := s[i]]
  }

  /** The new order after ← on `key`, or `None` when the click does nothing. */
  function LeftMoveOrder(ordered: seq<Value>, key: Value): (r: Option<seq<Value>>)
    ensures r.None? <==> IndexOf(ordered, key) <= 0
    ensures r.Some? ==> |r.value| == |ordered| && multiset(r.value) == multiset(ordered)
    ensures r.Some? ==> var i := IndexOf(ordered, key);
              r.value[i - 1] == key && r.value[i] == ordered[i - 1] &&
              forall k :: 0 <= k < |ordered| && k != i - 1 && k != i ==> r.value[k] == ordered[k]
  {
    var idx := IndexOf(ordered, key);
    if idx <= 0 then None else Some(Swap(ordered, idx - 1, idx))
  }

  /** The new order after → on `key`, or `None` when the click does nothing. */
  function RightMoveOrder(ordered: seq<Value>, key: Value): (r: Option<seq<Value>>)
    ensures r.None? <==> (IndexOf(ordered, key) < 0 || IndexOf(ordered, key) >= |ordered| - 1)
    ensures r.Some? ==> |r.value| == |ordered| && multiset(r.value) == multiset(ordered)
    ensures r.Some? ==> var i := IndexOf(ordered, key);
              r.value[i + 1] == key && r.value[i] == ordered[i + 1] &&
              forall k :: 0 <= k < |ordered| && k != i && k != i + 1 ==> r.value[k] == ordered[k]
  {
    var idx := IndexOf(ordered, key);
    if idx < 0 || idx >= |ordered| - 1 then None else Some(Swap(ordered, idx, idx + 1))
  }

  /** The ← handler: copies the current order, swaps `key` with its left
      neighbour in the copy and stores it as `columns.order`; `None` is the
      early return. */
  method MoveLeft(settings: Settings, schema: Schema, key: Value) returns (next: Option<Settings>)
    ensures next == match LeftMoveOrder(ColumnOrder(settings, schema), key)
                    case None => None
                    case Some(order) => Some(ApplyColumnSettings(settings, map["order" := Arr(order)]))
  {
    var ordered := ColumnOrder(settings, schema);
    var idx := IndexOf(ordered, key);
    if idx <= 0 {
      return None;
    }
    var nextOrder := new Value[|ordered|](i requires 0 <= i < |ordered| => ordered[i]);
    nextOrder[idx - 1], nextOrder[idx] := nextOrder[idx], nextOrder[idx - 1];
    assert nextOrder[..] == Swap(ordered, idx - 1, idx);
    next := Some(ApplyColumnSettings(settings, map["order" := Arr(nextOrder[..])]));
  }

  /** The → handler, symmetric to `MoveLeft`. */
  method MoveRight(settings: Settings, schema: Schema, key: Value) returns (next: Option<Settings>)
    ensures next == match RightMoveOrder(ColumnOrder(settings, schema), key)
                    case None => None
                    case Some(order) => Some(ApplyColumnSettings(settings, map["order" := Arr(order)]))
  {
    var ordered := ColumnOrder(settings, schema);
    var idx := IndexOf(ordered, key);
    if idx < 0 || idx >= |ordered| - 1 {
      return None;
    }
    var nextOrder := new Value[|ordered|](i requires 0 <= i < |ordered| => ordered[i]);
    nextOrder[idx], nextOrder[idx + 1] := nextOrder[idx + 1], nextOrder[idx];
    assert nextOrder[..] == Swap(ordered, idx, idx + 1);
    next := Some(ApplyColumnSettings(settings, map["order" := Arr(nextOrder[..])]));
  }

  /** The order rule, applied to settings whose `columns.order` a move set to
      a non-empty list, yields exactly that list. */
  lemma StoredOrderIsShown(settings: Settings, schema: Schema, order: seq<Value>)
    requires |order| > 0
    ensures ColumnOrder(ApplyColumnSettings(settings, map["order" := Arr(order)]), schema) == order
  {
  }

  /** The → rule applied to the order the ← rule produced, on the same key,
      gives back the original order. */
  lemma LeftThenRightRestores(ordered: seq<Value>, key: Value)
    requires LeftMoveOrder(ordered, key).Some?
    ensures RightMoveOrder(LeftMoveOrder(ordered, key).value, key) == Some(ordered)
  {
    var i := IndexOf(ordered, key);
    var moved := LeftMoveOrder(ordered, key).value;
    assert forall j :: 0 <= j < i - 1 ==> moved[j] != key;
    assert IndexOf(moved, key) == i - 1;
    assert Swap(moved, i - 1, i) == ordered;
  }

  /** The ← rule applied to the order the → rule produced, on a key that
      occurs once, gives back the original order. */
  lemma RightThenLeftRestores(ordered: seq<Value>, key: Value)
    requires forall i, j :: 0 <= i < j < |ordered| && ordered[i] == key ==> ordered[j] != key
    requires RightMoveOrder(ordered, key).Some?
    ensures LeftMoveOrder(RightMoveOrder(ordered, key).value, key) == Some(ordered)
  {
    var i := IndexOf(ordered, key);
    var moved := RightMoveOrder(ordered, key).value;
    assert forall j :: 0 <= j < i + 1 ==> moved[j] != key;
    assert IndexOf(moved, key) == i + 1;
    assert Swap(moved, i, i + 1) == ordered;
  }

  // ---------------------------------------------------------------------
  // Schema from template, and which template to use
  // ---------------------------------------------------------------------

  /** A column of a journal template; `rest` holds its other properties. */
  datatype TemplateColumn = TemplateColumn(key: Value, labelText: Value, rest: Object)

  /** A template's `columns` property: an array, or anything else. */
  datatype TemplateColumns = ColumnList(items: seq<TemplateColumn>) | NotAList

  datatype Template = Template(id: Option<string>, columns: TemplateColumns)

  /** `x ? … : …` for an optional string id. */
  predicate IsTruthyId(id: Option<string>)
  {
    id.Some? && Truthy(Str(id.value))
  }

  const NoneSchemaId: string := "tpl:__none__"

  /** The schema used when no template can be resolved. */
  const EmptySchema: Schema := Schema(NoneSchemaId, [])

  /** `schemaFromTemplate`; `None` stands for a `null`/`undefined` template. */
  function SchemaFromTemplate(template: Option<Template>): (s: Schema)
    ensures template.Some? && IsTruthyId(template.value.id) ==> s.id == "tpl:" + template.value.id.value
    ensures !(template.Some? && IsTruthyId(template.value.id)) ==> s.id == NoneSchemaId
    ensures template.Some? && template.value.columns.ColumnList? ==>
              var cols := template.value.columns.items;
              |s.fields| == |cols| &&
              forall i :: 0 <= i < |cols| ==> s.fields[i] == Field(cols[i].key, cols[i].labelText, "text")
    ensures !(template.Some? && template.value.columns.ColumnList?) ==> s.fields == []
  {
    var cols := if template.Some? && template.value.columns.ColumnList? then template.value.columns.items else [];
    Schema(
      if template.Some? && IsTruthyId(template.value.id) then "tpl:" + template.value.id.value else NoneSchemaId,
      seq(|cols|, i requires 0 <= i < |cols| => Field(cols[i].key, cols[i].labelText, "text")))
  }

  /** The derived schema carries the sentinel id exactly when the template
      has no usable id, or when its id is literally "__none__". */
  lemma SchemaSentinelId(template: Option<Template>)
    ensures SchemaFromTemplate(template).id == NoneSchemaId <==>
            !(template.Some? && IsTruthyId(template.value.id)) || template.value.id.value == "__none__"
  {
    if template.Some? && IsTruthyId(template.value.id) {
      var id := template.value.id.value;
      var sid := SchemaFromTemplate(template).id;
      assert sid[4..] == id;
      assert NoneSchemaId[4..] == "__none__";
    }
  }

  /** The keys the settings panel falls back to are the template's column keys. */
  lemma SchemaKeysFromTemplate(template: Template)
    requires template.columns.ColumnList?
    ensures SchemaKeys(SchemaFromTemplate(Some(template))) ==
            seq(|template.columns.items|, i requires 0 <= i < |template.columns.items| => template.columns.items[i].key)
  {
  }

  /** An entry of `listTemplateEntities()`. */
  datatype TemplateSummary = TemplateSummary(id: Option<string>)

  /** `list.find((t) => t.id === id)`. */
  function FindTemplate(list: seq<TemplateSummary>, id: string): (r: Option<TemplateSummary>)
    ensures r.Some? ==> r.value in list && r.value.id == Some(id)
    ensures r.Some? ==>
          exists i :: 0 <= i < |list| && list[i] == r.value &&
            (forall j :: 0 <= j < i ==> list[j].id != Some(id))
    ensures r.None? ==> forall i :: 0 <= i < |list| ==> list[i].id != Some(id)
    decreases |list|
  {
    if list == [] then None
    else if list[0].id == Some(id) then Some(list[0])
    else
      var r := FindTemplate(list[1..], id);
      assert r.Some? ==>
            exists i :: 0 <= i < |list| && list[i] == r.value &&
              (forall j :: 0 <= j < i ==> list[j].id != Some(id)) by {
        if r.Some? {
          var i :| 0 <= i < |list[1..]| && list[1..][i] == r.value &&
                   forall j :: 0 <= j < i ==> list[1..][j].id != Some(id);
          assert list[i + 1] == r.value;
          forall j | 0 <= j < i + 1 ensures list[j].id != Some(id) {
            if j > 0 { assert list[j] == list[1..][j - 1]; }
          }
        }
      }
      r
  }

  /** The default template of a journal without one: `test` when listed,
      else the first entry's id when it has one, else none. */
  function DefaultTemplateId(list: seq<TemplateSummary>): (r: Option<string>)
    ensures (exists i :: 0 <= i < |list| && list[i].id == Some("test")) ==> r == Some("test")
    ensures (forall i :: 0 <= i < |list| ==> list[i].id != Some("test")) ==>
              r == (if |list| > 0 && IsTruthyId(list[0].id) then list[0].id else None)
    ensures r.Some? ==> r.value != "" && exists i :: 0 <= i < |list| && list[i].id == r
  {
    var found := FindTemplate(list, "test");
    if found.Some? && IsTruthyId(found.value.id) then found.value.id
    else if |list| > 0 && IsTruthyId(list[0].id) then list[0].id
    else None
  }

  /** A journal of the navigation state, with the template it is bound to. */
  datatype Journal = Journal(id: Option<string>, templateId: Option<string>)

  /** The navigation state: the active journal's id and all journals. */
  datatype NavState = NavState(activeJournalId: Option<string>, journals: seq<Journal>)

  /** `journals.find((j) => j.id === activeJournalId)`. */
  function ActiveJournal(state: Option<NavState>): (r: Option<Journal>)
    ensures r.Some? ==> state.Some? && r.value in state.value.journals && r.value.id == state.value.activeJournalId
    ensures r.Some? ==>
          exists i :: 0 <= i < |state.value.journals| && state.value.journals[i] == r.value &&
            (forall j :: 0 <= j < i ==> state.value.journals[j].id != state.value.activeJournalId)
    ensures r.None? && state.Some? ==> forall i :: 0 <= i < |state.value.journals| ==>
              state.value.journals[i].id != state.value.activeJournalId
  {
    if state.None? then None else FindJournal(state.value.journals, state.value.activeJournalId)
  }

  function FindJournal(journals: seq<Journal>, id: Option<string>): (r: Option<Journal>)
    ensures r.Some? ==> r.value in journals && r.value.id == id
    ensures r.Some? ==>
          exists i :: 0 <= i < |journals| && journals[i] == r.value &&
            (forall j :: 0 <= j < i ==> journals[j].id != id)
    ensures r.None? ==> forall i :: 0 <= i < |journals| ==> journals[i].id != id
    decreases |journals|
  {
    if journals == [] then None
    else if journals[0].id == id then Some(journals[0])
    else
      var r := FindJournal(journals[1..], id);
      assert r.Some? ==>
            exists i :: 0 <= i < |journals| && journals[i] == r.value &&
              (forall j :: 0 <= j < i ==> journals[j].id != id) by {
        if r.Some? {
          var i :| 0 <= i < |journals[1..]| && journals[1..][i] == r.value &&
                   forall j :: 0 <= j < i ==> journals[1..][j].id != id;
          assert journals[i + 1] == r.value;
          forall j | 0 <= j < i + 1 ensures journals[j].id != id {
            if j > 0 { assert journals[j] == journals[1..][j - 1]; }
          }
        }
      }
      r
  }

  /** The template id `resolveSchema` ends up with: the active journal's own,
      else (for an active journal without one) the default, else none. */
  function ResolvedTemplateId(journal: Option<Journal>, templates: seq<TemplateSummary>): (r: Option<string>)
    ensures journal.None? ==> r.None?
    ensures journal.Some? && IsTruthyId(journal.value.templateId) ==> r == journal.value.templateId
    ensures journal.Some? && !IsTruthyId(journal.value.templateId) ==> r == DefaultTemplateId(templates)
    ensures r.Some? ==> r.value != ""
  {
    if journal.Some? && !IsTruthyId(journal.value.templateId) then DefaultTemplateId(templates)
    else if journal.Some? && IsTruthyId(journal.value.templateId) then journal.value.templateId
    else None
  }

  /** `resolveSchema` with its services passed in: whether a template service
      with `getTemplate` exists, the entries `listTemplateEntities` returns
      (empty when it is not offered), and `getTemplate` itself. */
  function ResolveSchema(state: Option<NavState>, hasTemplateService: bool,
                         templates: seq<TemplateSummary>, getTemplate: string -> Option<Template>): (s: Schema)
    ensures !hasTemplateService ==> s == EmptySchema
    ensures ResolvedTemplateId(ActiveJournal(state), templates).None? ==> s == EmptySchema
    ensures hasTemplateService && ResolvedTemplateId(ActiveJournal(state), templates).Some? ==>
              s == SchemaFromTemplate(getTemplate(ResolvedTemplateId(ActiveJournal(state), templates).value))
  {
    if !hasTemplateService then EmptySchema
    else
      var templateId := ResolvedTemplateId(ActiveJournal(state), templates);
      if templateId.None? then EmptySchema else SchemaFromTemplate(getTemplate(templateId.value))
  }

  /** A journal without a template is shown with the `test` template
      whenever that one is listed. */
  lemma ResolveSchemaPrefersTest(state: Option<NavState>, templates: seq<TemplateSummary>,
                                 getTemplate: string -> Option<Template>, i: int)
    requires ActiveJournal(state).Some? && !IsTruthyId(ActiveJournal(state).value.templateId)
    requires 0 <= i < |templates| && templates[i].id == Some("test")
    ensures ResolveSchema(state, true, templates, getTemplate) == SchemaFromTemplate(getTemplate("test"))
  {
  }
}
