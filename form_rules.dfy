/** Search and form rules of BaseController.js: search filters from the
    search model, the input kind for an EDM type, the ordered field list of
    the create/update dialog, per-value validation and the delete-result
    notice. `Number(value)`, `isNaN` and `Date.parse` are host coercions and
    enter as parameters. */
module FormRules {
  import opened Js
  import opened Text
  import opened Seqs
  import opened Edm
  import opened MetadataIndex

  // ---------------------------------------------------------------------
  // createFilters
  // ---------------------------------------------------------------------

  /** A filter as `createFilters` builds it. */
  datatype SearchFilter =
    | Contains(path: string, value: Value)
    | Between(path: string, low: string, high: string)
    | EqualsNumber(path: string, number: Value)

  /** One `[key, value]` pair of `Object.entries` of the search model. */
  datatype SearchEntry = SearchEntry(key: string, value: Value)

  const DayStart: string := "T00:00:00.000"
  const DayEnd: string := "T23:59:59.999"

  /** The filter for one entry, given the property `getProperty` found. A
      truthy non-string value of a `DateTimeOffset` property has no `split`
      and throws. */
  function FilterFor(key: string, value: Value, property: Option<Property>, toNumber: Value -> Value): (r: Result<Option<SearchFilter>>)
    ensures property.None? || !Truthy(value) ==> r == Success(None)
    ensures r.Failure? <==>
              property.Some? && Truthy(value) && property.value.edmType == "Edm.DateTimeOffset" && !value.Str?
    ensures r.Failure? ==> r.error == TypeError
    ensures r.Success? && property.Some? && Truthy(value) ==> r.value.Some? && r.value.value.path == key
    ensures r.Success? && r.value.Some? ==>
              (r.value.value.Contains? <==> property.value.edmType == "Edm.String") &&
              (r.value.value.Between? <==> property.value.edmType == "Edm.DateTimeOffset") &&
              (r.value.value.Contains? ==> r.value.value.value == value) &&
              (r.value.value.EqualsNumber? ==> r.value.value.number == toNumber(value))
    ensures r.Success? && r.value.Some? && r.value.value.Between? ==>
              value.Str? && r.value.value.low == BeforeFirst(value.s, 'T') + DayStart &&
              r.value.value.high == BeforeFirst(value.s, 'T') + DayEnd
  {
    if property.None? || !Truthy(value) then Success(None)
    else if property.value.edmType == "Edm.String" then Success(Some(Contains(key, value)))
    else if property.value.edmType == "Edm.DateTimeOffset" then
      if !value.Str? then Failure(TypeError)
      else
        var date := BeforeFirst(value.s, 'T');
        Success(Some(Between(key, date + DayStart, date + DayEnd)))
    else Success(Some(EqualsNumber(key, toNumber(value))))
  }

  /** Both bounds keep the date part of the value: the text before their
      first `T` is the text before the value's first `T`. */
  lemma DayBoundsKeepDate(s: string)
    ensures BeforeFirst(BeforeFirst(s, 'T') + DayStart, 'T') == BeforeFirst(s, 'T')
    ensures BeforeFirst(BeforeFirst(s, 'T') + DayEnd, 'T') == BeforeFirst(s, 'T')
  {
    var date := BeforeFirst(s, 'T');
    BeforeUnmarked(date, DayStart);
    BeforeUnmarked(date, DayEnd);
  }

  lemma BeforeUnmarked(date: string, bound: string)
    requires 'T' !in date
    requires |bound| > 0 && bound[0] == 'T'
    ensures BeforeFirst(date + bound, 'T') == date
  {
    SplitPrefix(date, bound, 'T');
    assert bound == [bound[0]] + bound[1..];
    assert Split(bound, 'T')[0] == "";
    assert date + "" == date;
  }

  /** A filter is in the list exactly when its entry yields one. */
  function OptionToSeq<T>(o: Option<T>): (s: seq<T>)
    ensures o.Some? ==> s == [o.value]
    ensures o.None? ==> s == []
  {
    if o.Some? then [o.value] else []
  }

  /** The filters for the entries seen so far; a lookup or a filter that
      throws ends the run. */
  function FiltersOf(t: EntityTypeRef, entries: seq<SearchEntry>, toNumber: Value -> Value): Result<seq<SearchFilter>>
    decreases |entries|
  {
    if |entries| == 0 then Success([])
    else
      var filters :- FiltersOf(t, entries[..|entries| - 1], toNumber);
      var here :- EntryFilters(t, entries[|entries| - 1], toNumber);
      Success(filters + here)
  }

  /** What one entry adds: nothing or its filter. */
  function EntryFilters(t: EntityTypeRef, e: SearchEntry, toNumber: Value -> Value): (r: Result<seq<SearchFilter>>)
    ensures r.Success? ==> |r.value| <= 1
    ensures r.Success? && |r.value| == 1 ==>
              r.value[0].path == e.key && Truthy(e.value) &&
              PropertyOf(t, e.key).Success? && PropertyOf(t, e.key).value.Some?
  {
    var property :- PropertyOf(t, e.key);
    var f :- FilterFor(e.key, e.value, property, toNumber);
    Success(OptionToSeq(f))
  }

  /** `createFilters(oSearchModelData, oEntityType)` */
  method CreateFilters(entries: seq<SearchEntry>, t: EntityTypeRef, toNumber: Value -> Value) returns (r: Result<seq<SearchFilter>>)
    ensures r == FiltersOf(t, entries, toNumber)
  {
    var filters: seq<SearchFilter> := [];
    for i := 0 to |entries|
      invariant FiltersOf(t, entries[..i], toNumber) == Success(filters)
    {
      assert entries[..i + 1][..i] == entries[..i];
      var e := entries[i];
      assert entries[..i + 1][i] == e;
      var property := GetProperty(t, e.key);
      if property.Failure? {
        FiltersPersist(t, entries, i + 1, toNumber);
        return Failure(property.error);
      }
      var f := FilterFor(e.key, e.value, property.value, toNumber);
      if f.Failure? {
        FiltersPersist(t, entries, i + 1, toNumber);
        return Failure(f.error);
      }
      assert EntryFilters(t, e, toNumber) == Success(OptionToSeq(f.value));
      FiltersStep(t, entries, i, toNumber);
      if f.value.Some? {
        filters := filters + [f.value.value];
      } else {
        assert filters + [] == filters;
      }
    }
    assert entries[..|entries|] == entries;
    return Success(filters);
  }

  /** One entry more: its filters follow those of the entries before it. */
  lemma FiltersStep(t: EntityTypeRef, entries: seq<SearchEntry>, i: nat, toNumber: Value -> Value)
    requires i < |entries|
    requires FiltersOf(t, entries[..i], toNumber).Success?
    requires EntryFilters(t, entries[i], toNumber).Success?
    ensures FiltersOf(t, entries[..i + 1], toNumber) ==
              Success(FiltersOf(t, entries[..i], toNumber).value + EntryFilters(t, entries[i], toNumber).value)
  {
    assert entries[..i + 1][..i] == entries[..i];
    assert entries[..i + 1][i] == entries[i];
  }

  /** Once a prefix throws, the whole run throws the same error. */
  lemma {:induction false} FiltersPersist(t: EntityTypeRef, entries: seq<SearchEntry>, k: nat, toNumber: Value -> Value)
    requires k <= |entries|
    requires FiltersOf(t, entries[..k], toNumber).Failure?
    ensures FiltersOf(t, entries, toNumber) == FiltersOf(t, entries[..k], toNumber)
    decreases |entries| - k
  {
    if k < |entries| {
      assert entries[..k + 1][..k] == entries[..k];
      FiltersPersist(t, entries, k + 1, toNumber);
    } else {
      assert entries[..k] == entries;
    }
  }

  /** At most one filter per entry, each for a property of the type whose
      value is truthy, and in entry order: the filters of two runs of
      entries are the filters of each, one after the other. */
  lemma {:induction false} FiltersOfAppend(t: EntityTypeRef, a: seq<SearchEntry>, b: seq<SearchEntry>, toNumber: Value -> Value)
    requires FiltersOf(t, a + b, toNumber).Success?
    ensures FiltersOf(t, a, toNumber).Success? && FiltersOf(t, b, toNumber).Success?
    ensures FiltersOf(t, a + b, toNumber).value == FiltersOf(t, a, toNumber).value + FiltersOf(t, b, toNumber).value
    decreases |b|
  {
    if |b| == 0 {
      assert a + b == a;
    } else {
      var init := b[..|b| - 1];
      assert (a + b)[..|a + b| - 1] == a + init;
      assert (a + b)[|a + b| - 1] == b[|b| - 1];
      FiltersOfAppend(t, a, init, toNumber);
    }
  }

  /** Every filter comes from an entry with a truthy value whose key names
      a property, and there are no more filters than entries. */
  lemma {:induction false} FiltersFromEntries(t: EntityTypeRef, entries: seq<SearchEntry>, toNumber: Value -> Value)
    requires FiltersOf(t, entries, toNumber).Success?
    ensures |FiltersOf(t, entries, toNumber).value| <= |entries|
    ensures forall f :: f in FiltersOf(t, entries, toNumber).value ==>
              exists i :: 0 <= i < |entries| && entries[i].key == f.path && Truthy(entries[i].value) &&
                PropertyOf(t, entries[i].key).Success? && PropertyOf(t, entries[i].key).value.Some?
    decreases |entries|
  {
    if |entries| > 0 {
      var init := entries[..|entries| - 1];
      FiltersFromEntries(t, init, toNumber);
      var last := entries[|entries| - 1];
      var here := EntryFilters(t, last, toNumber).value;
      forall f | f in FiltersOf(t, entries, toNumber).value
        ensures exists i :: 0 <= i < |entries| && entries[i].key == f.path && Truthy(entries[i].value) &&
                  PropertyOf(t, entries[i].key).Success? && PropertyOf(t, entries[i].key).value.Some?
      {
        if f in here {
          assert f == here[0];
        } else {
          assert f in FiltersOf(t, init, toNumber).value;
          var i :| 0 <= i < |init| && init[i].key == f.path && Truthy(init[i].value) &&
                   PropertyOf(t, init[i].key).Success? && PropertyOf(t, init[i].key).value.Some?;
          assert entries[i] == init[i];
        }
      }
    }
  }

  // ---------------------------------------------------------------------
  // getInputType
  // ---------------------------------------------------------------------

  datatype InputKind = TextInput | NumberInput | CheckboxInput | DateInput

  predicate IsNumericType(edmType: string) {
    edmType == "Edm.Int32" || edmType == "Edm.Int64" || edmType == "Edm.Decimal"
  }

  /** `getInputType(sEdmType)`: text unless the type is numeric, boolean or
      a date. */
  function InputType(edmType: string): (k: InputKind)
    ensures k == NumberInput <==> IsNumericType(edmType)
    ensures k == CheckboxInput <==> edmType == "Edm.Boolean"
    ensures k == DateInput <==> edmType == "Edm.Date" || edmType == "Edm.DateTime"
    ensures k == TextInput <==>
              !IsNumericType(edmType) && edmType != "Edm.Boolean" && edmType != "Edm.Date" && edmType != "Edm.DateTime"
  {
    match edmType
    case "Edm.String" => TextInput
    case "Edm.Int32" => NumberInput
    case "Edm.Int64" => NumberInput
    case "Edm.Decimal" => NumberInput
    case "Edm.Boolean" => CheckboxInput
    case "Edm.Date" => DateInput
    case "Edm.DateTime" => DateInput
    case _ => TextInput
  }

  // ---------------------------------------------------------------------
  // _createDialogInputs: the field list
  // ---------------------------------------------------------------------

  /** A table column: its header text and the property in its custom data. */
  datatype TableColumn = TableColumn(header: string, property: string)

  datatype FormField = FormField(caption: string, property: string, isKey: bool, isEditable: bool, edmType: string)

  /** `oProperty.type` for a property known to exist. */
  function PropertyType(et: EntityType, name: string): string {
    match LastNamed(et.properties, name)
    case Some(p) => p.edmType
    case None => ""
  }

  function IsKeyColumn(et: EntityType): TableColumn -> bool {
    (c: TableColumn) => c.property in et.key
  }

  function IsOtherColumn(et: EntityType): TableColumn -> bool {
    (c: TableColumn) => c.property !in et.key
  }

  /** The field a column contributes. */
  function ColumnField(et: EntityType, c: TableColumn, isUpdate: bool): FormField {
    if c.property in et.key then FormField(c.header, c.property, true, !isUpdate, PropertyType(et, c.property))
    else FormField(c.header, c.property, false, true, PropertyType(et, c.property))
  }

  function ColumnFields(et: EntityType, cs: seq<TableColumn>, isUpdate: bool): (fs: seq<FormField>)
    ensures |fs| == |cs|
    ensures forall i :: 0 <= i < |cs| ==> fs[i] == ColumnField(et, cs[i], isUpdate)
  {
    seq(|cs|, i requires 0 <= i < |cs| => ColumnField(et, cs[i], isUpdate))
  }

  /** The field for a key that no column shows: labelled by its name,
      editable. */
  function KeyFields(et: EntityType, keys: seq<string>): (fs: seq<FormField>)
    ensures |fs| == |keys|
    ensures forall i :: 0 <= i < |keys| ==> fs[i] == FormField(keys[i], keys[i], true, true, PropertyType(et, keys[i]))
  {
    seq(|keys|, i requires 0 <= i < |keys| => FormField(keys[i], keys[i], true, true, PropertyType(et, keys[i])))
  }

  function Reversed<T>(s: seq<T>): (r: seq<T>)
    ensures |r| == |s|
    ensures forall i :: 0 <= i < |s| ==> r[i] == s[|s| - 1 - i]
  {
    seq(|s|, i requires 0 <= i < |s| => s[|s| - 1 - i])
  }

  /** The property names the table's columns show. */
  function ColumnNames(cs: seq<TableColumn>): set<string> {
    set c | c in cs :: c.property
  }

  /** Key properties that no table column shows. */
  function Uncovered(columns: seq<TableColumn>): string -> bool {
    (k: string) => k !in ColumnNames(columns)
  }

  /** Every column names a property of the type; otherwise reading the
      type of the property found throws. */
  predicate ColumnsTyped(et: EntityType, cs: seq<TableColumn>) {
    forall c :: c in cs ==> LastNamed(et.properties, c.property).Some?
  }

  /** Every key that no column shows is a property of the type. */
  predicate MissingKeysTyped(et: EntityType, keys: seq<string>, columns: seq<TableColumn>) {
    forall k :: k in keys && k !in ColumnNames(columns) ==> LastNamed(et.properties, k).Some?
  }

  /** The field for a key that no column shows: labelled by its name,
      editable. */
  function KeyField(et: EntityType, k: string): FormField {
    FormField(k, k, true, true, PropertyType(et, k))
  }

  /** The key-column fields after the column pass: each is unshifted. */
  function KeyColumnFields(et: EntityType, cs: seq<TableColumn>, isUpdate: bool): seq<FormField>
    decreases |cs|
  {
    if |cs| == 0 then []
    else
      var c := cs[|cs| - 1];
      var before := KeyColumnFields(et, cs[..|cs| - 1], isUpdate);
      if c.property in et.key then [ColumnField(et, c, isUpdate)] + before else before
  }

  /** The other fields after the column pass: each is pushed. */
  function OtherColumnFields(et: EntityType, cs: seq<TableColumn>, isUpdate: bool): seq<FormField>
    decreases |cs|
  {
    if |cs| == 0 then []
    else
      var c := cs[|cs| - 1];
      var before := OtherColumnFields(et, cs[..|cs| - 1], isUpdate);
      if c.property in et.key then before else before + [ColumnField(et, c, isUpdate)]
  }

  /** The fields the register pass unshifts, one per key no column shows. */
  function MissingKeyFields(et: EntityType, keys: seq<string>, columns: seq<TableColumn>): seq<FormField>
    decreases |keys|
  {
    if |keys| == 0 then []
    else
      var k := keys[|keys| - 1];
      var before := MissingKeyFields(et, keys[..|keys| - 1], columns);
      if k !in ColumnNames(columns) then [KeyField(et, k)] + before else before
  }

  /** The field list: the keys no column shows (register only), then the
      key columns, then the other columns. Looking up a property that does
      not exist, or an entity type that is not resolved, throws. */
  function FormFieldsOf(t: EntityTypeRef, columns: seq<TableColumn>, isUpdate: bool): Result<seq<FormField>> {
    if !t.Resolved? then Failure(TypeError)
    else
      var et := t.entityType;
      if !ColumnsTyped(et, columns) || (!isUpdate && !MissingKeysTyped(et, et.key, columns)) then Failure(TypeError)
      else
        var missing := if isUpdate then [] else MissingKeyFields(et, et.key, columns);
        Success(missing + KeyColumnFields(et, columns, isUpdate) + OtherColumnFields(et, columns, isUpdate))
  }

  lemma ReversedSnoc<T>(s: seq<T>, x: T)
    ensures Reversed(s + [x]) == [x] + Reversed(s)
  {
  }

  lemma ColumnFieldsSnoc(et: EntityType, cs: seq<TableColumn>, c: TableColumn, isUpdate: bool)
    ensures ColumnFields(et, cs + [c], isUpdate) == ColumnFields(et, cs, isUpdate) + [ColumnField(et, c, isUpdate)]
  {
  }

  lemma KeyFieldsSnoc(et: EntityType, keys: seq<string>, k: string)
    ensures KeyFields(et, keys + [k]) == KeyFields(et, keys) + [KeyField(et, k)]
  {
  }

  /** The unshifts leave the key columns' fields in reverse column order. */
  lemma {:induction false} KeyColumnFieldsOrder(et: EntityType, cs: seq<TableColumn>, isUpdate: bool)
    ensures KeyColumnFields(et, cs, isUpdate) == Reversed(ColumnFields(et, Filter(cs, IsKeyColumn(et)), isUpdate))
    decreases |cs|
  {
    if |cs| > 0 {
      var init := cs[..|cs| - 1];
      var c := cs[|cs| - 1];
      var kept := Filter(init, IsKeyColumn(et));
      assert cs == init + [c];
      KeyColumnFieldsOrder(et, init, isUpdate);
      FilterSnoc(init, c, IsKeyColumn(et));
      if c.property in et.key {
        var f := ColumnField(et, c, isUpdate);
        assert Filter(cs, IsKeyColumn(et)) == kept + [c];
        ColumnFieldsSnoc(et, kept, c, isUpdate);
        ReversedSnoc(ColumnFields(et, kept, isUpdate), f);
        calc {
          KeyColumnFields(et, cs, isUpdate);
          [f] + KeyColumnFields(et, init, isUpdate);
          [f] + Reversed(ColumnFields(et, kept, isUpdate));
          Reversed(ColumnFields(et, kept, isUpdate) + [f]);
          Reversed(ColumnFields(et, kept + [c], isUpdate));
        }
      } else {
        assert Filter(cs, IsKeyColumn(et)) == kept + [];
        assert kept + [] == kept;
        assert KeyColumnFields(et, cs, isUpdate) == KeyColumnFields(et, init, isUpdate);
      }
    }
  }

  /** The pushes leave the other columns' fields in column order. */
  lemma {:induction false} OtherColumnFieldsOrder(et: EntityType, cs: seq<TableColumn>, isUpdate: bool)
    ensures OtherColumnFields(et, cs, isUpdate) == ColumnFields(et, Filter(cs, IsOtherColumn(et)), isUpdate)
    decreases |cs|
  {
    if |cs| > 0 {
      var init := cs[..|cs| - 1];
      var c := cs[|cs| - 1];
      assert cs == init + [c];
      OtherColumnFieldsOrder(et, init, isUpdate);
      FilterSnoc(init, c, IsOtherColumn(et));
      if c.property !in et.key {
        ColumnFieldsSnoc(et, Filter(init, IsOtherColumn(et)), c, isUpdate);
      }
    }
  }

  /** The unshifts leave the fields of the keys no column shows in reverse
      key order. */
  lemma {:induction false} MissingKeyFieldsOrder(et: EntityType, keys: seq<string>, columns: seq<TableColumn>)
    ensures MissingKeyFields(et, keys, columns) == Reversed(KeyFields(et, Filter(keys, Uncovered(columns))))
    decreases |keys|
  {
    if |keys| > 0 {
      var init := keys[..|keys| - 1];
      var k := keys[|keys| - 1];
      var kept := Filter(init, Uncovered(columns));
      assert keys == init + [k];
      MissingKeyFieldsOrder(et, init, columns);
      FilterSnoc(init, k, Uncovered(columns));
      if k !in ColumnNames(columns) {
        var f := KeyField(et, k);
        assert Filter(keys, Uncovered(columns)) == kept + [k];
        KeyFieldsSnoc(et, kept, k);
        ReversedSnoc(KeyFields(et, kept), f);
        calc {
          MissingKeyFields(et, keys, columns);
          [f] + MissingKeyFields(et, init, columns);
          [f] + Reversed(KeyFields(et, kept));
          Reversed(KeyFields(et, kept) + [f]);
          Reversed(KeyFields(et, kept + [k]));
        }
      } else {
        assert Filter(keys, Uncovered(columns)) == kept + [];
        assert kept + [] == kept;
        assert MissingKeyFields(et, keys, columns) == MissingKeyFields(et, init, columns);
      }
    }
  }

  /** One column more: a key column's field goes in front of the key
      fields, another column's field after the other fields. */
  /** One column of the pass: a key column's field goes in front, any other
      column's at the end. */
  lemma ColumnStep(et: EntityType, cs: seq<TableColumn>, i: nat, isUpdate: bool, fields: seq<FormField>)
    requires i < |cs|
    requires ColumnsTyped(et, cs[..i]) && LastNamed(et.properties, cs[i].property).Some?
    requires fields == KeyColumnFields(et, cs[..i], isUpdate) + OtherColumnFields(et, cs[..i], isUpdate)
    ensures ColumnsTyped(et, cs[..i + 1])
    ensures cs[i].property in et.key ==>
              [ColumnField(et, cs[i], isUpdate)] + fields ==
                KeyColumnFields(et, cs[..i + 1], isUpdate) + OtherColumnFields(et, cs[..i + 1], isUpdate)
    ensures cs[i].property !in et.key ==>
              fields + [ColumnField(et, cs[i], isUpdate)] ==
                KeyColumnFields(et, cs[..i + 1], isUpdate) + OtherColumnFields(et, cs[..i + 1], isUpdate)
  {
    var pre, cur := cs[..i], cs[..i + 1];
    assert cur == pre + [cs[i]];
    assert cur[..|cur| - 1] == pre && cur[|cur| - 1] == cs[i];
    var field := ColumnField(et, cs[i], isUpdate);
    var keyed, others := KeyColumnFields(et, pre, isUpdate), OtherColumnFields(et, pre, isUpdate);
    if cs[i].property in et.key {
      assert [field] + (keyed + others) == ([field] + keyed) + others;
    } else {
      assert (keyed + others) + [field] == keyed + (others + [field]);
    }
  }

  /** The column pass: key columns unshifted, others pushed. */
  method ColumnPass(et: EntityType, columns: seq<TableColumn>, isUpdate: bool) returns (r: Result<seq<FormField>>)
    ensures r.Success? <==> ColumnsTyped(et, columns)
    ensures r.Failure? ==> r.error == TypeError
    ensures r.Success? ==> r.value == KeyColumnFields(et, columns, isUpdate) + OtherColumnFields(et, columns, isUpdate)
  {
    var fields: seq<FormField> := [];
    for i := 0 to |columns|
      invariant ColumnsTyped(et, columns[..i])
      invariant fields == KeyColumnFields(et, columns[..i], isUpdate) + OtherColumnFields(et, columns[..i], isUpdate)
    {
      var c := columns[i];
      var property := GetProperty(Resolved(et), c.property);
      if property.value.None? {
        assert c in columns;
        return Failure(TypeError);
      }
      var edmType := property.value.value.edmType;
      assert edmType == PropertyType(et, c.property);
      ColumnStep(et, columns, i, isUpdate, fields);
      if c.property in et.key {
        fields := [FormField(c.header, c.property, true, !isUpdate, edmType)] + fields;
      } else {
        fields := fields + [FormField(c.header, c.property, false, true, edmType)];
      }
    }
    assert columns[..|columns|] == columns;
    return Success(fields);
  }

  /** One key of the register pass: a key no column shows is unshifted. */
  lemma MissingKeyStep(et: EntityType, keys: seq<string>, j: nat, columns: seq<TableColumn>, out: seq<FormField>, fields: seq<FormField>)
    requires j < |keys|
    requires MissingKeysTyped(et, keys[..j], columns)
    requires out == MissingKeyFields(et, keys[..j], columns) + fields
    ensures keys[j] in ColumnNames(columns) ==>
              MissingKeysTyped(et, keys[..j + 1], columns) &&
              out == MissingKeyFields(et, keys[..j + 1], columns) + fields
    ensures keys[j] !in ColumnNames(columns) && LastNamed(et.properties, keys[j]).Some? ==>
              MissingKeysTyped(et, keys[..j + 1], columns) &&
              [KeyField(et, keys[j])] + out == MissingKeyFields(et, keys[..j + 1], columns) + fields
  {
    var pre, cur := keys[..j], keys[..j + 1];
    assert cur == pre + [keys[j]];
    assert cur[..|cur| - 1] == pre && cur[|cur| - 1] == keys[j];
    var before := MissingKeyFields(et, pre, columns);
    assert [KeyField(et, keys[j])] + (before + fields) == ([KeyField(et, keys[j])] + before) + fields;
  }

  /** The register pass: each key no column shows is unshifted. */
  method MissingKeyPass(et: EntityType, columns: seq<TableColumn>, fields: seq<FormField>) returns (r: Result<seq<FormField>>)
    ensures r.Success? <==> MissingKeysTyped(et, et.key, columns)
    ensures r.Failure? ==> r.error == TypeError
    ensures r.Success? ==> r.value == MissingKeyFields(et, et.key, columns) + fields
  {
    var keys := et.key;
    var out := fields;
    for j := 0 to |keys|
      invariant MissingKeysTyped(et, keys[..j], columns)
      invariant out == MissingKeyFields(et, keys[..j], columns) + fields
    {
      var k := keys[j];
      var shown := exists c :: c in columns && c.property == k;
      assert shown <==> k in ColumnNames(columns);
      MissingKeyStep(et, keys, j, columns, out, fields);
      if !shown {
        var property := GetProperty(Resolved(et), k);
        if property.value.None? {
          assert k in keys && k !in ColumnNames(columns);
          return Failure(TypeError);
        }
        var edmType := property.value.value.edmType;
        assert edmType == PropertyType(et, k);
        out := [FormField(k, k, true, true, edmType)] + out;
      }
    }
    assert keys[..|keys|] == keys;
    return Success(out);
  }

  /** The field-list part of `_createDialogInputs(bIsUpdate, ...)`. */
  method BuildFormFields(t: EntityTypeRef, columns: seq<TableColumn>, isUpdate: bool) returns (r: Result<seq<FormField>>)
    ensures r == FormFieldsOf(t, columns, isUpdate)
  {
    if !t.Resolved? {
      return Failure(TypeError);
    }
    var et := t.entityType;
    r := ColumnPass(et, columns, isUpdate);
    if r.Failure? {
      assert r == Failure(TypeError);
      assert !ColumnsTyped(et, columns);
      return;
    }
    var kept := r.value;
    if isUpdate {
      assert [] + KeyColumnFields(et, columns, true) == KeyColumnFields(et, columns, true);
      return;
    }
    r := MissingKeyPass(et, columns, kept);
    assert r.Success? ==>
      r.value == MissingKeyFields(et, et.key, columns) + KeyColumnFields(et, columns, false) + OtherColumnFields(et, columns, false);
  }

  /** Every key-column field is a key field, editable only on register. */
  lemma {:induction false} KeyColumnFieldsAreKeys(et: EntityType, cs: seq<TableColumn>, isUpdate: bool)
    ensures forall f :: f in KeyColumnFields(et, cs, isUpdate) ==>
              f.isKey && f.property in et.key && (f.isEditable <==> !isUpdate)
    decreases |cs|
  {
    if |cs| > 0 {
      KeyColumnFieldsAreKeys(et, cs[..|cs| - 1], isUpdate);
    }
  }

  /** Every other field is editable and not a key. */
  lemma {:induction false} OtherColumnFieldsAreEditable(et: EntityType, cs: seq<TableColumn>, isUpdate: bool)
    ensures forall f :: f in OtherColumnFields(et, cs, isUpdate) ==> !f.isKey && f.isEditable
    decreases |cs|
  {
    if |cs| > 0 {
      OtherColumnFieldsAreEditable(et, cs[..|cs| - 1], isUpdate);
    }
  }

  /** Every field of a key no column shows is an editable key field. */
  lemma {:induction false} MissingKeyFieldsAreKeys(et: EntityType, keys: seq<string>, columns: seq<TableColumn>)
    ensures forall f :: f in MissingKeyFields(et, keys, columns) ==>
              f.isKey && f.isEditable && f.property in keys && f.property !in ColumnNames(columns)
    decreases |keys|
  {
    if |keys| > 0 {
      var init := keys[..|keys| - 1];
      MissingKeyFieldsAreKeys(et, init, columns);
      assert forall k :: k in init ==> k in keys;
    }
  }

  /** Key fields all come before the other fields. */
  lemma KeysFirst(t: EntityTypeRef, columns: seq<TableColumn>, isUpdate: bool)
    requires FormFieldsOf(t, columns, isUpdate).Success?
    ensures var fs := FormFieldsOf(t, columns, isUpdate).value;
            forall i, j :: 0 <= i < j < |fs| && fs[j].isKey ==> fs[i].isKey
  {
    var et := t.entityType;
    var a := if isUpdate then [] else MissingKeyFields(et, et.key, columns);
    var b := KeyColumnFields(et, columns, isUpdate);
    var c := OtherColumnFields(et, columns, isUpdate);
    MissingKeyFieldsAreKeys(et, et.key, columns);
    KeyColumnFieldsAreKeys(et, columns, isUpdate);
    OtherColumnFieldsAreEditable(et, columns, isUpdate);
    var fs := a + b + c;
    assert forall k :: 0 <= k < |a| + |b| ==> fs[k].isKey by {
      forall k | 0 <= k < |a| + |b|
        ensures fs[k].isKey
      {
        assert fs[k] == (a + b)[k];
        assert (a + b)[k] in a + b;
      }
    }
    assert forall k :: |a| + |b| <= k < |fs| ==> !fs[k].isKey by {
      forall k | |a| + |b| <= k < |fs|
        ensures !fs[k].isKey
      {
        assert fs[k] == c[k - |a| - |b|];
      }
    }
  }

  /** `oInput.setRequired(true)` when the field is a key and the dialog
      registers. */
  predicate Required(f: FormField, isUpdate: bool) {
    f.isKey && !isUpdate
  }

  /** On update no field is required, key fields are locked and the others
      editable. */
  lemma UpdateLocksKeys(t: EntityTypeRef, columns: seq<TableColumn>)
    requires FormFieldsOf(t, columns, true).Success?
    ensures forall f :: f in FormFieldsOf(t, columns, true).value ==>
              !Required(f, true) && (f.isEditable <==> !f.isKey)
  {
    var et := t.entityType;
    var b := KeyColumnFields(et, columns, true);
    var c := OtherColumnFields(et, columns, true);
    KeyColumnFieldsAreKeys(et, columns, true);
    OtherColumnFieldsAreEditable(et, columns, true);
    assert FormFieldsOf(t, columns, true).value == [] + b + c;
  }

  /** A key no column shows gets its field. */
  lemma {:induction false} MissingKeyFieldsCover(et: EntityType, keys: seq<string>, columns: seq<TableColumn>, k: string)
    requires k in keys && k !in ColumnNames(columns)
    ensures KeyField(et, k) in MissingKeyFields(et, keys, columns)
    decreases |keys|
  {
    var init := keys[..|keys| - 1];
    if k != keys[|keys| - 1] {
      assert keys == init + [keys[|keys| - 1]];
      MissingKeyFieldsCover(et, init, columns, k);
    }
  }

  /** A key column gets its field. */
  lemma {:induction false} KeyColumnFieldsCover(et: EntityType, cs: seq<TableColumn>, c: TableColumn, isUpdate: bool)
    requires c in cs && c.property in et.key
    ensures ColumnField(et, c, isUpdate) in KeyColumnFields(et, cs, isUpdate)
    decreases |cs|
  {
    var init := cs[..|cs| - 1];
    if c != cs[|cs| - 1] {
      assert cs == init + [cs[|cs| - 1]];
      KeyColumnFieldsCover(et, init, c, isUpdate);
    }
  }

  /** On register every key of the entity type gets a required field. */
  lemma RegisterCoversKeys(t: EntityTypeRef, columns: seq<TableColumn>)
    requires FormFieldsOf(t, columns, false).Success?
    ensures forall k :: k in t.entityType.key ==>
              exists f :: f in FormFieldsOf(t, columns, false).value && f.property == k && Required(f, false)
  {
    var et := t.entityType;
    var a := MissingKeyFields(et, et.key, columns);
    var b := KeyColumnFields(et, columns, false);
    var fs := FormFieldsOf(t, columns, false).value;
    assert fs == a + b + OtherColumnFields(et, columns, false);
    forall k | k in et.key
      ensures exists f :: f in fs && f.property == k && Required(f, false)
    {
      if k !in ColumnNames(columns) {
        MissingKeyFieldsCover(et, et.key, columns, k);
        assert KeyField(et, k) in fs;
      } else {
        var c :| c in columns && c.property == k;
        KeyColumnFieldsCover(et, columns, c, false);
        assert ColumnField(et, c, false) in fs;
      }
    }
  }

  /** The input control a field gets: a date picker for the two date-time
      types, otherwise an input of the field's kind. */
  datatype Control = DatePicker(enabled: bool, required: bool) | TextBox(kind: InputKind, enabled: bool, required: bool)

  function ControlFor(f: FormField, isUpdate: bool): (c: Control)
    ensures c.DatePicker? <==> f.edmType == "Edm.DateTime" || f.edmType == "Edm.DateTimeOffset"
    ensures c.TextBox? ==> c.kind == InputType(f.edmType)
    ensures c.enabled == f.isEditable
    ensures c.required <==> Required(f, isUpdate)
  {
    if f.edmType == "Edm.DateTime" || f.edmType == "Edm.DateTimeOffset" then
      DatePicker(f.isEditable, f.isKey && !isUpdate)
    else TextBox(InputType(f.edmType), f.isEditable, f.isKey && !isUpdate)
  }

  // ---------------------------------------------------------------------
  // validateInputs
  // ---------------------------------------------------------------------

  datatype Problem = Missing | NotNumber | NotBoolean | NotDate

  datatype Validation = Valid | Invalid(caption: string, problem: Problem)

  /** A label and its input: the input's value binding path and text. */
  datatype DialogInput = DialogInput(caption: string, bindingPath: string, value: string)

  /** `getBinding("value").getPath().split("/").pop()` */
  function BoundProperty(path: string): string {
    var parts := Split(path, '/');
    parts[|parts| - 1]
  }

  /** The rule for a non-empty trimmed value of a typed property. */
  function ValueProblem(edmType: string, v: string, isNaN: string -> bool, dateParses: string -> bool): (p: Option<Problem>)
    ensures p != Some(Missing)
    ensures p == Some(NotNumber) <==> IsNumericType(edmType) && isNaN(v)
    ensures p == Some(NotBoolean) <==> edmType == "Edm.Boolean" && v != "true" && v != "false"
    ensures p == Some(NotDate) <==> (edmType == "Edm.DateTime" || edmType == "Edm.DateTimeOffset") && !dateParses(v)
  {
    if IsNumericType(edmType) then (if isNaN(v) then Some(NotNumber) else None)
    else if edmType == "Edm.Boolean" then (if v != "true" && v != "false" then Some(NotBoolean) else None)
    else if edmType == "Edm.DateTime" || edmType == "Edm.DateTimeOffset" then
      (if !dateParses(v) then Some(NotDate) else None)
    else None
  }

  /** One pair: the property look-up (which throws for an unresolved type
      name), then the empty check, then the type's rule. */
  function CheckInput(t: EntityTypeRef, input: DialogInput, isNaN: string -> bool, dateParses: string -> bool): Result<Option<Problem>> {
    var property :- PropertyOf(t, BoundProperty(input.bindingPath));
    var v := Trim(input.value);
    if v == "" then Success(Some(Missing))
    else if property.None? then Success(None)
    else Success(ValueProblem(property.value.edmType, v, isNaN, dateParses))
  }

  /** The check of every pair, in order. */
  function Checks(t: EntityTypeRef, inputs: seq<DialogInput>, isNaN: string -> bool, dateParses: string -> bool): (cs: seq<Result<Option<Problem>>>)
    ensures |cs| == |inputs|
    ensures forall i :: 0 <= i < |inputs| ==> cs[i] == CheckInput(t, inputs[i], isNaN, dateParses)
  {
    seq(|inputs|, i requires 0 <= i < |inputs| => CheckInput(t, inputs[i], isNaN, dateParses))
  }

  /** The outcome of the checks taken in order: the first that throws or
      finds a problem decides. */
  function Outcome(inputs: seq<DialogInput>, checks: seq<Result<Option<Problem>>>): Result<Validation>
    requires |checks| == |inputs|
    decreases |inputs|
  {
    if |inputs| == 0 then Success(Valid)
    else
      var problem :- checks[0];
      if problem.Some? then Success(Invalid(inputs[0].caption, problem.value))
      else Outcome(inputs[1..], checks[1..])
  }

  /** `validateInputs` as a value: the pairs checked in order, stopping at
      the first failure. */
  function ValidationOf(t: EntityTypeRef, inputs: seq<DialogInput>, isNaN: string -> bool, dateParses: string -> bool): Result<Validation> {
    Outcome(inputs, Checks(t, inputs, isNaN, dateParses))
  }

  /** `validateInputs`: the index loop with its early returns. */
  method ValidateInputs(t: EntityTypeRef, inputs: seq<DialogInput>, isNaN: string -> bool, dateParses: string -> bool)
    returns (r: Result<Validation>)
    ensures r == ValidationOf(t, inputs, isNaN, dateParses)
  {
    ghost var checks := Checks(t, inputs, isNaN, dateParses);
    var i := 0;
    while i < |inputs|
      invariant 0 <= i <= |inputs|
      invariant ValidationOf(t, inputs, isNaN, dateParses) == Outcome(inputs[i..], checks[i..])
    {
      assert inputs[i..][0] == inputs[i] && inputs[i..][1..] == inputs[i + 1..];
      assert checks[i..][0] == checks[i] && checks[i..][1..] == checks[i + 1..];
      var input := inputs[i];
      var property := GetProperty(t, BoundProperty(input.bindingPath));
      if property.Failure? {
        return Failure(property.error);
      }
      var v := Trim(input.value);
      if v == "" {
        return Success(Invalid(input.caption, Missing));
      }
      if property.value.Some? {
        var problem := ValueProblem(property.value.value.edmType, v, isNaN, dateParses);
        if problem.Some? {
          return Success(Invalid(input.caption, problem.value));
        }
      }
      i := i + 1;
    }
    return Success(Valid);
  }

  /** The checks lead to a valid outcome exactly when each passes. */
  lemma {:induction false} OutcomeValid(inputs: seq<DialogInput>, checks: seq<Result<Option<Problem>>>)
    requires |checks| == |inputs|
    ensures Outcome(inputs, checks) == Success(Valid) <==> forall i :: 0 <= i < |checks| ==> checks[i] == Success(None)
    decreases |inputs|
  {
    if |inputs| > 0 {
      OutcomeValid(inputs[1..], checks[1..]);
      if checks[0] == Success(None) {
        assert forall i :: 1 <= i < |checks| ==> checks[i] == checks[1..][i - 1];
      }
    }
  }

  /** An invalid outcome names the first pair whose check finds a problem,
      and every check before it passes. */
  lemma {:induction false} OutcomeInvalid(inputs: seq<DialogInput>, checks: seq<Result<Option<Problem>>>)
    requires |checks| == |inputs|
    requires Outcome(inputs, checks).Success? && Outcome(inputs, checks).value.Invalid?
    ensures exists i :: 0 <= i < |inputs| &&
              inputs[i].caption == Outcome(inputs, checks).value.caption &&
              checks[i] == Success(Some(Outcome(inputs, checks).value.problem)) &&
              forall j :: 0 <= j < i ==> checks[j] == Success(None)
    decreases |inputs|
  {
    var v := Outcome(inputs, checks).value;
    if checks[0] == Success(None) {
      OutcomeInvalid(inputs[1..], checks[1..]);
      var i :| 0 <= i < |inputs| - 1 && inputs[1..][i].caption == v.caption &&
               checks[1..][i] == Success(Some(v.problem)) &&
               forall j :: 0 <= j < i ==> checks[1..][j] == Success(None);
      assert inputs[i + 1] == inputs[1..][i] && checks[i + 1] == checks[1..][i];
      assert forall j :: 1 <= j < i + 1 ==> checks[j] == checks[1..][j - 1];
    }
  }

  /** An outcome that throws carries the error of a check that threw. */
  lemma {:induction false} OutcomeFailure(inputs: seq<DialogInput>, checks: seq<Result<Option<Problem>>>)
    requires |checks| == |inputs|
    requires Outcome(inputs, checks).Failure?
    ensures exists i :: 0 <= i < |checks| && checks[i] == Failure(Outcome(inputs, checks).error)
    decreases |inputs|
  {
    if checks[0].Success? {
      OutcomeFailure(inputs[1..], checks[1..]);
      var i :| 0 <= i < |checks| - 1 && checks[1..][i] == Failure(Outcome(inputs, checks).error);
      assert checks[i + 1] == checks[1..][i];
    }
  }

  /** The inputs are valid exactly when every pair passes. */
  lemma ValidExactlyWhenAllPass(t: EntityTypeRef, inputs: seq<DialogInput>, isNaN: string -> bool, dateParses: string -> bool)
    ensures ValidationOf(t, inputs, isNaN, dateParses) == Success(Valid) <==>
              forall i :: 0 <= i < |inputs| ==> CheckInput(t, inputs[i], isNaN, dateParses) == Success(None)
  {
    OutcomeValid(inputs, Checks(t, inputs, isNaN, dateParses));
  }

  /** An invalid outcome names the first pair that fails, and its problem. */
  lemma InvalidNamesFirstFailure(t: EntityTypeRef, inputs: seq<DialogInput>, isNaN: string -> bool, dateParses: string -> bool)
    requires ValidationOf(t, inputs, isNaN, dateParses).Success?
    requires ValidationOf(t, inputs, isNaN, dateParses).value.Invalid?
    ensures exists i :: 0 <= i < |inputs| &&
              inputs[i].caption == ValidationOf(t, inputs, isNaN, dateParses).value.caption &&
              CheckInput(t, inputs[i], isNaN, dateParses) == Success(Some(ValidationOf(t, inputs, isNaN, dateParses).value.problem)) &&
              forall j :: 0 <= j < i ==> CheckInput(t, inputs[j], isNaN, dateParses) == Success(None)
  {
    OutcomeInvalid(inputs, Checks(t, inputs, isNaN, dateParses));
  }

  /** Validation throws only for an entity type given by name alone. */
  lemma ValidationThrowsOnlyForTypeName(t: EntityTypeRef, inputs: seq<DialogInput>, isNaN: string -> bool, dateParses: string -> bool)
    requires ValidationOf(t, inputs, isNaN, dateParses).Failure?
    ensures ValidationOf(t, inputs, isNaN, dateParses).error == TypeError && t.TypeName? && t.qualified != ""
  {
    var checks := Checks(t, inputs, isNaN, dateParses);
    OutcomeFailure(inputs, checks);
    var i :| 0 <= i < |checks| && checks[i] == Failure(ValidationOf(t, inputs, isNaN, dateParses).error);
    assert checks[i] == CheckInput(t, inputs[i], isNaN, dateParses);
  }

  /** Without an entity type only empty values fail. */
  lemma {:induction false} UntypedInputsNeedOnlyText(inputs: seq<DialogInput>, isNaN: string -> bool, dateParses: string -> bool)
    ensures ValidationOf(NoType, inputs, isNaN, dateParses) == Success(Valid) <==>
              forall i :: 0 <= i < |inputs| ==> Trim(inputs[i].value) != ""
  {
    ValidExactlyWhenAllPass(NoType, inputs, isNaN, dateParses);
    assert forall i :: 0 <= i < |inputs| ==>
      (CheckInput(NoType, inputs[i], isNaN, dateParses) == Success(None) <==> Trim(inputs[i].value) != "");
  }

  // ---------------------------------------------------------------------
  // _showDeleteResult
  // ---------------------------------------------------------------------

  datatype Notice = SuccessNotice | WarningNotice | ErrorNotice

  /** `_showDeleteResult(iSuccessCount, iErrorCount)`: the message box shown,
      if any. */
  function DeleteNotice(successCount: int, errorCount: int): (r: Option<Notice>)
    ensures r == Some(SuccessNotice) <==> successCount > 0 && errorCount == 0
    ensures r == Some(WarningNotice) <==> successCount > 0 && errorCount > 0
    ensures r == Some(ErrorNotice) <==> successCount <= 0 && errorCount > 0
    ensures r.None? <==> errorCount <= 0 && !(successCount > 0 && errorCount == 0)
  {
    if successCount > 0 && errorCount == 0 then Some(SuccessNotice)
    else if successCount > 0 && errorCount > 0 then Some(WarningNotice)
    else if errorCount > 0 then Some(ErrorNotice)
    else None
  }

  /** With counts that cannot be negative, nothing is shown exactly when
      both are zero. */
  lemma DeleteNoticeForCounts(successCount: nat, errorCount: nat)
    ensures DeleteNotice(successCount, errorCount).None? <==> successCount == 0 && errorCount == 0
  {
  }
}
