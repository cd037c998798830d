/** Column descriptors of the combined table and the key predicates built
    from them: `_createColumnMetadata`, `_convertColumnMetadata`,
    `_getModelForEntityFromJsonModel`, `_createUriFromJsonModel` and
    `createUriFromMetadata`. */
module Columns {
  import opened Js
  import opened Text
  import opened Seqs
  import opened Edm
  import opened MetadataIndex

  /** An OData model instance, known by its identity and its service URL. */
  datatype ODataModel = ODataModel(id: nat, serviceUrl: string)

  /** A column descriptor; `entityType` is set only by `_convertColumnMetadata`. */
  datatype ColumnMeta = ColumnMeta(
    columnName: string,
    isKey: bool,
    entitySet: string,
    entityType: Option<string>,
    model: ODataModel)

  /** `_createColumnMetadata`: one column per property, in property order,
      tagged with the entity set and model it comes from. */
  function CreateColumnMetadata(info: EntitySetInfo, setName: string, model: ODataModel): (cols: seq<ColumnMeta>)
    ensures |cols| == |info.properties|
    ensures forall i :: 0 <= i < |cols| ==>
              cols[i].columnName == info.properties[i].property.name &&
              cols[i].isKey == info.properties[i].isKey &&
              cols[i].entitySet == setName && cols[i].model == model && cols[i].entityType.None?
  {
    seq(|info.properties|, i requires 0 <= i < |info.properties| =>
      ColumnMeta(info.properties[i].property.name, info.properties[i].isKey, setName, None, model))
  }

  /** Built from `_getEntitySetProperties`, the columns name the type's
      properties in order, and a column is a key column exactly when its
      property is among the type's key references. */
  lemma ColumnsFollowEntityType(info: EntitySetInfo, t: EntityType, setName: string, model: ODataModel)
    requires KeysMarked(info.properties, t)
    ensures var cols := CreateColumnMetadata(info, setName, model);
            |cols| == |t.properties| &&
            forall i :: 0 <= i < |cols| ==>
              cols[i].columnName == t.properties[i].name && (cols[i].isKey <==> cols[i].columnName in t.key)
  {
  }

  /** A column `_convertColumnMetadata` is about to emit: its preferred name,
      the name it takes when the preferred one was already emitted, and the
      rest of its descriptor. */
  datatype Candidate = Candidate(
    name: string,
    fallback: string,
    isKey: bool,
    entitySet: string,
    entityType: string)

  /** The columns of an entity type's own properties. */
  function OwnCandidates(t: EntityType, typeName: string, setName: string): (cs: seq<Candidate>)
    ensures |cs| == |t.properties|
    ensures forall i :: 0 <= i < |cs| ==>
              cs[i] == Candidate(t.properties[i].name, typeName + "_" + t.properties[i].name,
                                 t.properties[i].name in t.key, setName, typeName)
  {
    seq(|t.properties|, i requires 0 <= i < |t.properties| =>
      Candidate(t.properties[i].name, typeName + "_" + t.properties[i].name,
                t.properties[i].name in t.key, setName, typeName))
  }

  /** The columns a navigation property contributes from one referenced
      entity type: `${nav}_${prop}`, falling back to `${RefType}_${prop}`. */
  function RefTypeCandidates(navName: string, ref: EntityType, setName: string): seq<Candidate> {
    seq(|ref.properties|, i requires 0 <= i < |ref.properties| =>
      Candidate(navName + "_" + ref.properties[i].name, ref.name + "_" + ref.properties[i].name,
                ref.properties[i].name in ref.key, setName, ref.name))
  }

  function RefTypesCandidates(navName: string, refs: seq<EntityType>, setName: string): seq<Candidate> {
    if |refs| == 0 then []
    else RefTypeCandidates(navName, refs[0], setName) + RefTypesCandidates(navName, refs[1..], setName)
  }

  function NamespaceIs(ns: string): Schema -> bool {
    (s: Schema) => s.namespace == ns
  }

  /** The columns of the navigation properties: the schema looked up is the
      one whose namespace equals the relationship name, and all of its entity
      types contribute. */
  function NavCandidates(m: ServiceMetadata, navs: seq<NavigationProperty>, setName: string): Result<seq<Candidate>> {
    if |navs| == 0 then Success([])
    else
      var here :- NavColumns(m, navs[0], setName);
      var rest :- NavCandidates(m, navs[1..], setName);
      Success(here + rest)
  }

  function NavColumns(m: ServiceMetadata, nav: NavigationProperty, setName: string): Result<seq<Candidate>> {
    match Find(m.schemas, NamespaceIs(nav.relationship))
    case None => Success([])
    case Some(ref) =>
      if ref.entityTypes.None? then Failure(TypeError)
      else Success(RefTypesCandidates(nav.name, ref.entityTypes.value, setName))
  }

  /** In a document where no relationship name is also a schema namespace
      (relationships are normally qualified by the namespace), the navigation
      properties contribute no columns. */
  lemma {:induction false} NoNavigationColumns(m: ServiceMetadata, navs: seq<NavigationProperty>, setName: string)
    requires forall s, n :: s in m.schemas && n in navs ==> s.namespace != n.relationship
    ensures NavCandidates(m, navs, setName) == Success([])
  {
    if |navs| > 0 {
      assert navs[0] in navs;
      assert forall s :: s in m.schemas ==> !NamespaceIs(navs[0].relationship)(s);
      assert Find(m.schemas, NamespaceIs(navs[0].relationship)) == None;
      assert forall n :: n in navs[1..] ==> n in navs;
      NoNavigationColumns(m, navs[1..], setName);
      var here := NavColumns(m, navs[0], setName);
      assert here == Success([]);
      var empty: seq<Candidate> := [];
      assert empty + empty == empty;
      assert NavCandidates(m, navs, setName) == Success(here.Extract() + NavCandidates(m, navs[1..], setName).Extract());
    }
  }

  /** The columns of one entity set: its type is looked up in the same
      schema only; a type that is not found contributes nothing. */
  function SetCandidates(m: ServiceMetadata, s: Schema, es: EntitySet): Result<seq<Candidate>> {
    if s.entityTypes.None? then Failure(TypeError)
    else
      var typeName := LastSegment(es.entityType);
      match Find(s.entityTypes.value, TypeNamed(typeName))
      case None => Success([])
      case Some(t) =>
        if t.navigationProperties.None? then Failure(TypeError)
        else
          var navColumns :- NavCandidates(m, t.navigationProperties.value, es.name);
          Success(OwnCandidates(t, typeName, es.name) + navColumns)
  }

  function SetsCandidates(m: ServiceMetadata, s: Schema, sets: seq<EntitySet>): Result<seq<Candidate>> {
    if |sets| == 0 then Success([])
    else
      var here :- SetCandidates(m, s, sets[0]);
      var rest :- SetsCandidates(m, s, sets[1..]);
      Success(here + rest)
  }

  function ContainersCandidates(m: ServiceMetadata, s: Schema, cs: seq<EntityContainer>): Result<seq<Candidate>> {
    if |cs| == 0 then Success([])
    else if cs[0].entitySets.None? then Failure(TypeError)
    else
      var here :- SetsCandidates(m, s, cs[0].entitySets.value);
      var rest :- ContainersCandidates(m, s, cs[1..]);
      Success(here + rest)
  }

  function SchemasCandidates(m: ServiceMetadata, ss: seq<Schema>): Result<seq<Candidate>> {
    if |ss| == 0 then Success([])
    else if ss[0].containers.None? then Failure(TypeError)
    else
      var here :- ContainersCandidates(m, ss[0], ss[0].containers.value);
      var rest :- SchemasCandidates(m, ss[1..]);
      Success(here + rest)
  }

  /** The traversal of `_convertColumnMetadata`, schema by schema, container
      by container, entity set by entity set; `forEach` on an absent array
      throws a TypeError. */
  function Candidates(m: ServiceMetadata): Result<seq<Candidate>> {
    SchemasCandidates(m, m.schemas)
  }

  /** The name a candidate gets given the names emitted so far. */
  function ChosenName(c: Candidate, seen: set<string>): string {
    if c.name in seen then c.fallback else c.name
  }

  /** The descriptors emitted for `cs`, given the names already recorded. */
  function Emit(cs: seq<Candidate>, seen: set<string>, model: ODataModel): (out: seq<ColumnMeta>)
    ensures |out| == |cs|
  {
    if |cs| == 0 then []
    else
      var name := ChosenName(cs[0], seen);
      [ColumnMeta(name, cs[0].isKey, cs[0].entitySet, Some(cs[0].entityType), model)] +
      Emit(cs[1..], seen + {name}, model)
  }

  /** The names of a list of descriptors. */
  function NamesOf(cols: seq<ColumnMeta>): set<string> {
    set i | 0 <= i < |cols| :: cols[i].columnName
  }

  lemma NamesOfCons(c: ColumnMeta, cols: seq<ColumnMeta>)
    ensures NamesOf([c] + cols) == {c.columnName} + NamesOf(cols)
  {
    var all := [c] + cols;
    forall x | x in NamesOf(all)
      ensures x in {c.columnName} + NamesOf(cols)
    {
      var k :| 0 <= k < |all| && all[k].columnName == x;
      if k > 0 {
        assert cols[k - 1] == all[k];
      }
    }
    forall x | x in {c.columnName} + NamesOf(cols)
      ensures x in NamesOf(all)
    {
      if x == c.columnName {
        assert all[0].columnName == x;
      } else {
        var k :| 0 <= k < |cols| && cols[k].columnName == x;
        assert all[k + 1] == cols[k];
      }
    }
  }

  /** The names recorded before position `i` of `[c] + cols`. */
  lemma NamesBeforeCons(c: ColumnMeta, cols: seq<ColumnMeta>, seen: set<string>, i: nat)
    requires 1 <= i <= |cols| + 1
    ensures seen + NamesOf(([c] + cols)[..i]) == (seen + {c.columnName}) + NamesOf(cols[..i - 1])
  {
    assert ([c] + cols)[..i] == [c] + cols[..i - 1];
    NamesOfCons(c, cols[..i - 1]);
  }

  /** The name of the `i`-th descriptor, by induction on `i`. */
  lemma {:induction false} EmitNameAt(cs: seq<Candidate>, seen: set<string>, model: ODataModel, i: nat)
    requires i < |cs|
    ensures Emit(cs, seen, model)[i].columnName == ChosenName(cs[i], seen + NamesOf(Emit(cs, seen, model)[..i]))
    decreases i
  {
    var out := Emit(cs, seen, model);
    var name := ChosenName(cs[0], seen);
    var tail := Emit(cs[1..], seen + {name}, model);
    assert out == [out[0]] + tail && out[0].columnName == name;
    if i == 0 {
      assert NamesOf(out[..0]) == {};
    } else {
      EmitNameAt(cs[1..], seen + {name}, model, i - 1);
      NamesBeforeCons(out[0], tail, seen, i);
      assert out[i] == tail[i - 1];
      assert cs[1..][i - 1] == cs[i];
    }
  }

  /** Each candidate keeps its preferred name unless that name was recorded
      before it, in which case it takes its fallback. */
  lemma {:induction false} EmitNames(cs: seq<Candidate>, seen: set<string>, model: ODataModel)
    ensures forall i :: 0 <= i < |cs| ==>
              Emit(cs, seen, model)[i].columnName ==
                ChosenName(cs[i], seen + NamesOf(Emit(cs, seen, model)[..i]))
  {
    forall i | 0 <= i < |cs|
      ensures Emit(cs, seen, model)[i].columnName ==
                ChosenName(cs[i], seen + NamesOf(Emit(cs, seen, model)[..i]))
    {
      EmitNameAt(cs, seen, model, i);
    }
  }

  /** The rest of each descriptor is copied from its candidate. */
  lemma {:induction false} EmitCopies(cs: seq<Candidate>, seen: set<string>, model: ODataModel)
    ensures forall i :: 0 <= i < |cs| ==>
              var c := Emit(cs, seen, model)[i];
              c.isKey == cs[i].isKey && c.entitySet == cs[i].entitySet &&
              c.entityType == Some(cs[i].entityType) && c.model == model
  {
    if |cs| > 0 {
      EmitCopies(cs[1..], seen + {ChosenName(cs[0], seen)}, model);
    }
  }

  /** The fallback is not checked again: three columns named `X` whose
      fallback is `T_X` come out as `X`, `T_X`, `T_X`. */
  lemma FallbackCanRepeat(model: ODataModel)
    ensures var c := Candidate("X", "T_X", false, "S", "T");
            var out := Emit([c, c, c], {}, model);
            out[1].columnName == "T_X" && out[2].columnName == "T_X"
  {
    var c := Candidate("X", "T_X", false, "S", "T");
    assert "T_X" != "X";
    var e1 := Emit([c], {"X", "T_X"}, model);
    assert e1[0].columnName == "T_X";
    var e2 := Emit([c, c], {"X"}, model);
    assert [c, c][1..] == [c];
    assert {"X"} + {"T_X"} == {"X", "T_X"};
    assert e2 == [ColumnMeta("T_X", false, "S", Some("T"), model)] + e1;
    var e3 := Emit([c, c, c], {}, model);
    assert [c, c, c][1..] == [c, c];
    assert {} + {"X"} == {"X"};
    assert e3 == [ColumnMeta("X", false, "S", Some("T"), model)] + e2;
  }

  /** The naming loop of `_convertColumnMetadata`: each candidate is named
      against the `existingColumns` set of names recorded so far. */
  method NameColumns(cs: seq<Candidate>, model: ODataModel) returns (expanded: seq<ColumnMeta>)
    ensures expanded == Emit(cs, {}, model)
  {
    expanded := [];
    var existing: set<string> := {};
    for i := 0 to |cs|
      invariant expanded + Emit(cs[i..], existing, model) == Emit(cs, {}, model)
    {
      var name := cs[i].name;
      if name in existing {
        name := cs[i].fallback;
      }
      var column := ColumnMeta(name, cs[i].isKey, cs[i].entitySet, Some(cs[i].entityType), model);
      assert cs[i..][1..] == cs[i + 1..];
      assert Emit(cs[i..], existing, model) == [column] + Emit(cs[i + 1..], existing + {name}, model);
      expanded := expanded + [column];
      existing := existing + {name};
    }
  }

  /** `_convertColumnMetadata`: the traversal's candidates, named in order. */
  method ConvertColumnMetadata(m: ServiceMetadata, model: ODataModel) returns (r: Result<seq<ColumnMeta>>)
    ensures r.Failure? <==> Candidates(m).Failure?
    ensures r.Failure? ==> r.error == TypeError
    ensures r.Success? ==> r.value == Emit(Candidates(m).value, {}, model)
  {
    var found := Candidates(m);
    if found.Failure? {
      CandidatesErrors(m, m.schemas);
      return Failure(TypeError);
    }
    var expanded := NameColumns(found.value, model);
    return Success(expanded);
  }

  /** The only error of the traversal is a TypeError. */
  lemma {:induction false} CandidatesErrors(m: ServiceMetadata, ss: seq<Schema>)
    ensures SchemasCandidates(m, ss).Failure? ==> SchemasCandidates(m, ss).error == TypeError
  {
    if |ss| > 0 && ss[0].containers.Some? {
      ContainersErrors(m, ss[0], ss[0].containers.value);
      CandidatesErrors(m, ss[1..]);
    }
  }

  lemma {:induction false} ContainersErrors(m: ServiceMetadata, s: Schema, cs: seq<EntityContainer>)
    ensures ContainersCandidates(m, s, cs).Failure? ==> ContainersCandidates(m, s, cs).error == TypeError
  {
    if |cs| > 0 && cs[0].entitySets.Some? {
      SetsErrors(m, s, cs[0].entitySets.value);
      ContainersErrors(m, s, cs[1..]);
    }
  }

  lemma {:induction false} SetsErrors(m: ServiceMetadata, s: Schema, sets: seq<EntitySet>)
    ensures SetsCandidates(m, s, sets).Failure? ==> SetsCandidates(m, s, sets).error == TypeError
  {
    if |sets| > 0 {
      var es := sets[0];
      if s.entityTypes.Some? {
        match Find(s.entityTypes.value, TypeNamed(LastSegment(es.entityType)))
        case None =>
        case Some(t) =>
          if t.navigationProperties.Some? {
            NavErrors(m, t.navigationProperties.value, es.name);
          }
      }
      SetsErrors(m, s, sets[1..]);
    }
  }

  lemma {:induction false} NavErrors(m: ServiceMetadata, navs: seq<NavigationProperty>, setName: string)
    ensures NavCandidates(m, navs, setName).Failure? ==> NavCandidates(m, navs, setName).error == TypeError
  {
    if |navs| > 0 {
      NavErrors(m, navs[1..], setName);
    }
  }

  function InSet(setName: string): ColumnMeta -> bool {
    (c: ColumnMeta) => c.entitySet == setName
  }

  /** `_getModelForEntityFromJsonModel`: the model of the first column that
      belongs to the entity set, or null. */
  function ModelForEntitySet(metadata: seq<ColumnMeta>, setName: string): (r: Option<ODataModel>)
    ensures r.None? <==> forall c :: c in metadata ==> c.entitySet != setName
    ensures r.Some? ==>
              exists i :: 0 <= i < |metadata| && metadata[i].entitySet == setName &&
                metadata[i].model == r.value &&
                forall j :: 0 <= j < i ==> metadata[j].entitySet != setName
  {
    match FirstIndex(metadata, InSet(setName))
    case None => None
    case Some(i) => Some(metadata[i].model)
  }

  /** `${name}='${row[name]}'` */
  function KeyPart(name: string, row: Row): string {
    name + "='" + ToText(Get(row, name)) + "'"
  }

  function KeyParts(names: seq<string>, row: Row): (parts: seq<string>)
    ensures |parts| == |names|
    ensures forall i :: 0 <= i < |names| ==> parts[i] == KeyPart(names[i], row)
  {
    seq(|names|, i requires 0 <= i < |names| => KeyPart(names[i], row))
  }

  /** The comma-joined key predicate over the given key names. */
  function KeyPredicate(names: seq<string>, row: Row): string {
    Join(KeyParts(names, row), ",")
  }

  function IsKeyColumnOf(setName: string): ColumnMeta -> bool {
    (c: ColumnMeta) => c.entitySet == setName && c.isKey
  }

  function ColumnNames(cols: seq<ColumnMeta>): (names: seq<string>)
    ensures |names| == |cols|
    ensures forall i :: 0 <= i < |cols| ==> names[i] == cols[i].columnName
  {
    seq(|cols|, i requires 0 <= i < |cols| => cols[i].columnName)
  }

  /** At least one key name, and no key name or value holding a comma: the
      comma-joined predicate can then be split back into its parts. */
  predicate CommaFreeKeys(names: seq<string>, row: Row) {
    |names| >= 1 && forall i :: 0 <= i < |names| ==> ',' !in names[i] && ',' !in ToText(Get(row, names[i]))
  }

  /** `/${setName}(${inner})`: the set name and the key predicate read back
      from the path. */
  function KeyPath(setName: string, inner: string): (uri: string)
    ensures |uri| == |setName| + |inner| + 3
    ensures uri[..|setName| + 2] == "/" + setName + "(" && uri[|uri| - 1] == ')'
    ensures uri[|setName| + 2..|uri| - 1] == inner
  {
    var uri := "/" + setName + "(" + inner + ")";
    assert uri[|setName| + 2..|uri| - 1] == inner;
    uri
  }

  /** `_createUriFromJsonModel`. Its guard tests the filtered array for
      falsiness and for `=== 0`; an array is a truthy object and never
      strictly equals a number, so the guard never throws. */
  function CreateUriFromJsonModel(metadata: seq<ColumnMeta>, setName: string, row: Row): (r: Result<string>)
    ensures r.Success?
    ensures (forall c :: c in metadata ==> !(c.entitySet == setName && c.isKey)) ==>
              r.value == "/" + setName + "()"
    ensures |r.value| >= |setName| + 3 && r.value[..|setName| + 2] == "/" + setName + "(" &&
            r.value[|r.value| - 1] == ')'
    ensures var names := ColumnNames(Filter(metadata, IsKeyColumnOf(setName)));
            CommaFreeKeys(names, row) ==>
              Split(r.value[|setName| + 2..|r.value| - 1], ',') == KeyParts(names, row)
  {
    var keyColumns := Filter(metadata, IsKeyColumnOf(setName));
    var filtered := Obj(0);
    if !Truthy(filtered) || StrictEquals(filtered, Num(0)) then
      Failure(KeyMetadataMissing(setName))
    else
      var names := ColumnNames(keyColumns);
      if CommaFreeKeys(names, row) then
        KeyPredicateSplits(names, row);
        Success(KeyPath(setName, KeyPredicate(names, row)))
      else
        Success(KeyPath(setName, KeyPredicate(names, row)))
  }

  /** `createUriFromMetadata`: the key predicate over the type's key
      references, in key order, without the entity set or parentheses. */
  function CreateUriFromMetadata(t: EntityType, row: Row): (key: string)
    ensures |t.key| == 0 ==> key == ""
    ensures |t.key| == 1 ==> key == KeyPart(t.key[0], row)
    ensures CommaFreeKeys(t.key, row) ==> Split(key, ',') == KeyParts(t.key, row)
  {
    if CommaFreeKeys(t.key, row) then
      KeyPredicateSplits(t.key, row);
      KeyPredicate(t.key, row)
    else
      KeyPredicate(t.key, row)
  }

  /** The two builders agree whenever the table's key columns for the set
      name the type's key references in key order. */
  lemma UriBuildersAgree(metadata: seq<ColumnMeta>, setName: string, t: EntityType, row: Row)
    requires ColumnNames(Filter(metadata, IsKeyColumnOf(setName))) == t.key
    ensures CreateUriFromJsonModel(metadata, setName, row) ==
            Success("/" + setName + "(" + CreateUriFromMetadata(t, row) + ")")
  {
  }

  /** Splitting a key predicate at commas gives back its `k='v'` parts when
      no key name or value contains a comma. */
  lemma KeyPredicateSplits(names: seq<string>, row: Row)
    requires CommaFreeKeys(names, row)
    ensures Split(KeyPredicate(names, row), ',') == KeyParts(names, row)
  {
    var parts := KeyParts(names, row);
    forall i | 0 <= i < |parts|
      ensures ',' !in parts[i]
    {
      assert parts[i] == names[i] + "='" + ToText(Get(row, names[i])) + "'";
    }
    SplitJoin(parts, ',');
  }
}
