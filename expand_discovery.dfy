/** The sample controller: it finds the navigation properties of one entity
    set's type in the first schema of the metadata document and binds the
    orders table with an `$expand` of all of them, or without one when there
    are none. Waiting for `metadataLoaded()` is left to the caller. */
module ExpandDiscovery {
  import opened Js
  import opened Text
  import opened Seqs
  import opened Edm

  /** The entity set the sample binds. */
  const OrdersSet: string := "Orders"

  function NamedSet(setName: string): EntitySet -> bool {
    (s: EntitySet) => s.name == setName
  }

  /** `entityType.name === oEntityType.split(".")[1]`: a qualified name
      without a dot yields `undefined`, which no name equals. */
  function NamedBySecondSegment(qualified: string): EntityType -> bool {
    (t: EntityType) => SecondSegment(qualified).Some? && t.name == SecondSegment(qualified).value
  }

  /** The names of navigation properties, in declaration order. */
  function NavNames(navs: seq<NavigationProperty>): (names: seq<string>)
    ensures |names| == |navs|
    ensures forall k :: 0 <= k < |navs| ==> names[k] == navs[k].name
  {
    seq(|navs|, k requires 0 <= k < |navs| => navs[k].name)
  }

  /** What the names of a type's navigation properties are, once the set's
      qualified type name is known: nothing for an empty name, a TypeError
      when the schema lists no entity types, otherwise the names of the
      first type matched by the second segment. */
  function TypeExpandProperties(schema: Schema, qualified: string): (r: Result<seq<string>>)
    ensures r.Failure? <==> qualified != "" && schema.entityTypes.None?
    ensures r.Failure? ==> r.error == TypeError
    ensures r.Success? && r.value != [] ==>
              schema.entityTypes.Some? &&
              exists j :: FirstAt(schema.entityTypes.value, NamedBySecondSegment(qualified), j) &&
                var t := schema.entityTypes.value[j];
                t.navigationProperties.Some? && SecondSegment(qualified) == Some(t.name) &&
                r.value == NavNames(t.navigationProperties.value)
    ensures qualified != "" && schema.entityTypes.Some? ==>
              forall j :: FirstAt(schema.entityTypes.value, NamedBySecondSegment(qualified), j) ==>
                var t := schema.entityTypes.value[j];
                r == Success(if t.navigationProperties.Some? then NavNames(t.navigationProperties.value) else [])
  {
    if qualified == "" then Success([])
    else if schema.entityTypes.None? then Failure(TypeError)
    else
      var types := schema.entityTypes.value;
      FindFirstAt(types, NamedBySecondSegment(qualified));
      assert forall j, k ::
               (FirstAt(types, NamedBySecondSegment(qualified), j) && FirstAt(types, NamedBySecondSegment(qualified), k)) ==> j == k;
      match Find(types, NamedBySecondSegment(qualified))
      case None => Success([])
      case Some(t) => Success(if t.navigationProperties.Some? then NavNames(t.navigationProperties.value) else [])
  }

  /** `_getExpandProperties(oMetaModel, sEntitySetName)` as a value. Reading
      `schema[0].entityContainer[0].entitySet` or its `length` throws when
      one of them is missing. */
  function ExpandPropertiesOf(m: ServiceMetadata, setName: string): (r: Result<seq<string>>)
    ensures r.Failure? ==> r.error == TypeError
  {
    if |m.schemas| == 0 then Failure(TypeError)
    else
      var schema := m.schemas[0];
      if schema.containers.None? || |schema.containers.value| == 0 then Failure(TypeError)
      else
        var sets := schema.containers.value[0].entitySets;
        if sets.None? then Failure(TypeError)
        else
          match Find(sets.value, NamedSet(setName))
          case None => Success([])
          case Some(s) => TypeExpandProperties(schema, s.entityType)
  }

  /** `_getExpandProperties`: a search loop that stops at the first set
      with the name, then one push per navigation property. */
  method GetExpandProperties(m: ServiceMetadata, setName: string) returns (r: Result<seq<string>>)
    ensures r == ExpandPropertiesOf(m, setName)
  {
    var expandProps: seq<string> := [];
    if |m.schemas| == 0 {
      return Failure(TypeError);
    }
    var schema := m.schemas[0];
    if schema.containers.None? || |schema.containers.value| == 0 {
      return Failure(TypeError);
    }
    var entitySets := schema.containers.value[0].entitySets;
    if entitySets.None? {
      return Failure(TypeError);
    }
    var sets := entitySets.value;
    var entityType: Option<string> := None;
    var i := 0;
    while i < |sets|
      invariant 0 <= i <= |sets|
      invariant entityType.None?
      invariant forall j :: 0 <= j < i ==> !NamedSet(setName)(sets[j])
    {
      if sets[i].name == setName {
        entityType := Some(sets[i].entityType);
        break;
      }
      i := i + 1;
    }
    if entityType.None? {
      return Success([]);
    }
    FindIsFirst(sets, NamedSet(setName), i);
    if entityType.value != "" {
      if schema.entityTypes.None? {
        return Failure(TypeError);
      }
      var current := Find(schema.entityTypes.value, NamedBySecondSegment(entityType.value));
      if current.Some? && current.value.navigationProperties.Some? {
        var navs := current.value.navigationProperties.value;
        for k := 0 to |navs|
          invariant expandProps == NavNames(navs[..k])
        {
          expandProps := expandProps + [navs[k].name];
        }
        assert navs[..|navs|] == navs;
      }
    }
    return Success(expandProps);
  }

  /** The first entity set with the name decides, whatever sets follow. */
  lemma FirstNamedSetDecides(m: ServiceMetadata, setName: string, i: nat)
    requires |m.schemas| > 0 && m.schemas[0].containers.Some? && |m.schemas[0].containers.value| > 0
    requires m.schemas[0].containers.value[0].entitySets.Some?
    requires var sets := m.schemas[0].containers.value[0].entitySets.value;
             i < |sets| && sets[i].name == setName && forall j :: 0 <= j < i ==> sets[j].name != setName
    ensures ExpandPropertiesOf(m, setName) ==
              TypeExpandProperties(m.schemas[0], m.schemas[0].containers.value[0].entitySets.value[i].entityType)
  {
    FindIsFirst(m.schemas[0].containers.value[0].entitySets.value, NamedSet(setName), i);
  }

  /** Without a set of that name the list is empty; it never throws then. */
  lemma NoNamedSetNoExpand(m: ServiceMetadata, setName: string)
    requires |m.schemas| > 0 && m.schemas[0].containers.Some? && |m.schemas[0].containers.value| > 0
    requires m.schemas[0].containers.value[0].entitySets.Some?
    requires forall s :: s in m.schemas[0].containers.value[0].entitySets.value ==> s.name != setName
    ensures ExpandPropertiesOf(m, setName) == Success([])
  {
  }

  /** A non-empty list names, in declaration order, the navigation
      properties of an entity type of the first schema, found through a set
      of the given name in its first container. */
  lemma ExpandNamesComeFromFirstSchema(m: ServiceMetadata, setName: string)
    requires ExpandPropertiesOf(m, setName).Success? && ExpandPropertiesOf(m, setName).value != []
    ensures exists s, t ::
              s in m.schemas[0].containers.value[0].entitySets.value && s.name == setName &&
              t in m.schemas[0].entityTypes.value && t.navigationProperties.Some? &&
              SecondSegment(s.entityType) == Some(t.name) &&
              ExpandPropertiesOf(m, setName).value == NavNames(t.navigationProperties.value)
  {
    var s := Find(m.schemas[0].containers.value[0].entitySets.value, NamedSet(setName)).value;
    var r := TypeExpandProperties(m.schemas[0], s.entityType);
    var t :| t in m.schemas[0].entityTypes.value && t.navigationProperties.Some? &&
             SecondSegment(s.entityType) == Some(t.name) && r.value == NavNames(t.navigationProperties.value);
  }

  /** A one-schema document holding a type `typeName` with a `Customer`
      navigation property, and an `Orders` set whose type is `qualified`. */
  function SampleMetadata(namespace: string, typeName: string, qualified: string): ServiceMetadata {
    var nav := NavigationProperty("Customer", namespace + ".Relationship", typeName, "Customer", None);
    var t := EntityType(typeName, [], [], Some([nav]));
    var orders := EntitySet(OrdersSet, qualified, None);
    ServiceMetadata([Schema(namespace, Some([t]), None, Some([EntityContainer("Container", Some([orders]))]))])
  }

  /** The second segment of a dotted name is its second part. */
  lemma SecondSegmentOfJoin(parts: seq<string>)
    requires |parts| >= 2
    requires forall i :: 0 <= i < |parts| ==> '.' !in parts[i]
    ensures SecondSegment(Join(parts, ".")) == Some(parts[1])
  {
    SplitJoin(parts, '.');
  }

  /** A type in a namespace with a dot is missed: for `A.B.Order` the
      second segment is `B`, so the `Order` type's navigation properties
      are not found. */
  lemma DottedNamespaceMissesType(ns1: string, ns2: string, typeName: string)
    requires '.' !in ns1 && '.' !in ns2 && '.' !in typeName && ns2 != typeName
    ensures ExpandPropertiesOf(SampleMetadata(ns1 + "." + ns2, typeName, Join([ns1, ns2, typeName], ".")), OrdersSet) == Success([])
  {
    var qualified := Join([ns1, ns2, typeName], ".");
    SecondSegmentOfJoin([ns1, ns2, typeName]);
    var m := SampleMetadata(ns1 + "." + ns2, typeName, qualified);
    FindIsFirst(m.schemas[0].containers.value[0].entitySets.value, NamedSet(OrdersSet), 0);
    assert qualified != "" by {
      assert qualified == ns1 + "." + Join([ns2, typeName], ".");
    }
    assert !NamedBySecondSegment(qualified)(m.schemas[0].entityTypes.value[0]);
  }

  /** With a namespace of one segment the same type is found, and its
      navigation property is listed. */
  lemma PlainNamespaceFindsType(ns: string, typeName: string)
    requires '.' !in ns && '.' !in typeName
    ensures ExpandPropertiesOf(SampleMetadata(ns, typeName, Join([ns, typeName], ".")), OrdersSet) == Success(["Customer"])
  {
    var qualified := Join([ns, typeName], ".");
    SecondSegmentOfJoin([ns, typeName]);
    var m := SampleMetadata(ns, typeName, qualified);
    FindIsFirst(m.schemas[0].containers.value[0].entitySets.value, NamedSet(OrdersSet), 0);
    assert qualified != "" by {
      assert qualified == ns + "." + Join([typeName], ".");
    }
    var t := m.schemas[0].entityTypes.value[0];
    assert NamedBySecondSegment(qualified)(t);
    FindIsFirst(m.schemas[0].entityTypes.value, NamedBySecondSegment(qualified), 0);
    assert NavNames(t.navigationProperties.value) == ["Customer"];
  }

  /** How the orders table is bound: with an `$expand` parameter or
      without one. */
  datatype TableBinding = TableBinding(path: string, expand: Option<string>)

  /** The binding `onInit` chooses for the list of names: the expand
      binding exactly when the list is non-empty, its parameter the
      comma-join of the names. */
  function BindingFor(names: seq<string>): (b: TableBinding)
    ensures b.path == "/" + OrdersSet
    ensures b.expand.Some? <==> |names| > 0
  {
    if |names| > 0 then TableBinding("/" + OrdersSet, Some(Join(names, ",")))
    else TableBinding("/" + OrdersSet, None)
  }

  /** `onInit` once the metadata is loaded: the expand properties of the
      orders set, then the binding for them. */
  function InitialBinding(m: ServiceMetadata): (r: Result<TableBinding>)
    ensures r.Failure? <==> ExpandPropertiesOf(m, OrdersSet).Failure?
    ensures r.Success? ==> r.value == BindingFor(ExpandPropertiesOf(m, OrdersSet).value)
  {
    var names :- ExpandPropertiesOf(m, OrdersSet);
    Success(BindingFor(names))
  }

  /** The `$expand` parameter lists the names found, in order, whenever no
      name holds a comma. */
  lemma ExpandParameterListsNames(names: seq<string>)
    requires |names| > 0
    requires forall k :: 0 <= k < |names| ==> ',' !in names[k]
    ensures BindingFor(names).expand.Some?
    ensures Split(BindingFor(names).expand.value, ',') == names
  {
    SplitJoin(names, ',');
  }
}
