/** The OData V2 service metadata document as the UI5 model hands it over
    (`getServiceMetadata()`): schemas holding entity types, associations and
    entity containers. Arrays that the document may omit are `Option`s. */
module Edm {
  import opened Js
  import opened Seqs

  /** A declared property; `facets` are its other attributes (nullable,
      maxLength, ...), which some routines copy and others drop. */
  datatype Property = Property(name: string, edmType: string, facets: map<string, string>)

  /** A navigation property. `navType` is the directly stated target type,
      which V2 documents usually leave out. */
  datatype NavigationProperty = NavigationProperty(
    name: string,
    relationship: string,
    fromRole: string,
    toRole: string,
    navType: Option<string>)

  /** `key` holds the names of the key `propertyRef`s in declaration order. */
  datatype EntityType = EntityType(
    name: string,
    key: seq<string>,
    properties: seq<Property>,
    navigationProperties: Option<seq<NavigationProperty>>)

  datatype AssociationEnd = AssociationEnd(role: string, endType: string, multiplicity: string)

  /** An association with its two ends, `end[0]` and `end[1]`. */
  datatype Association = Association(name: string, end0: AssociationEnd, end1: AssociationEnd)

  /** `entityType` is the qualified type name; `resolvedType` is the
      `__entityType` object the UI5 model may attach. */
  datatype EntitySet = EntitySet(name: string, entityType: string, resolvedType: Option<EntityType>)

  datatype EntityContainer = EntityContainer(name: string, entitySets: Option<seq<EntitySet>>)

  datatype Schema = Schema(
    namespace: string,
    entityTypes: Option<seq<EntityType>>,
    associations: Option<seq<Association>>,
    containers: Option<seq<EntityContainer>>)

  /** `oMetadata.dataServices.schema` */
  datatype ServiceMetadata = ServiceMetadata(schemas: seq<Schema>)

  function SchemaEntityTypes(s: Schema): Option<seq<EntityType>> { s.entityTypes }
  function SchemaAssociations(s: Schema): Option<seq<Association>> { s.associations }
  function SchemaContainers(s: Schema): Option<seq<EntityContainer>> { s.containers }
  function ContainerEntitySets(c: EntityContainer): Option<seq<EntitySet>> { c.entitySets }

  function OrEmpty<T>(o: Option<seq<T>>): seq<T> {
    if o.Some? then o.value else []
  }

  /** `xs.flatMap(x => x.f || [])`: an absent array contributes nothing. */
  function FlatOrEmpty<S(!new), T(!new)>(xs: seq<S>, f: S -> Option<seq<T>>): (r: seq<T>)
    ensures forall t :: t in r <==> exists x :: x in xs && t in OrEmpty(f(x))
  {
    if |xs| == 0 then []
    else
      var r := OrEmpty(f(xs[0])) + FlatOrEmpty(xs[1..], f);
      assert forall x :: x in xs <==> x == xs[0] || x in xs[1..];
      r
  }

  /** `xs.flatMap(x => x.f)`: an absent array contributes one undefined
      element, which a later `find` callback trips over. */
  function FlatSlots<S, T>(xs: seq<S>, f: S -> Option<seq<T>>): seq<Option<T>> {
    if |xs| == 0 then []
    else Slots(f(xs[0])) + FlatSlots(xs[1..], f)
  }

  function Slots<T>(o: Option<seq<T>>): (r: seq<Option<T>>)
    ensures o.None? ==> r == [None]
    ensures o.Some? ==> r == Present(o.value)
  {
    if o.None? then [None] else Present(o.value)
  }

  /** The present slots are the elements of the forgiving flattening, and an
      undefined slot appears exactly when some array is absent. */
  lemma {:induction false} FlatSlotsMembers<S(!new), T(!new)>(xs: seq<S>, f: S -> Option<seq<T>>)
    ensures forall t :: Some(t) in FlatSlots(xs, f) <==> t in FlatOrEmpty(xs, f)
    ensures None in FlatSlots(xs, f) <==> exists x :: x in xs && f(x).None?
  {
    if |xs| > 0 {
      FlatSlotsMembers(xs[1..], f);
      assert forall x :: x in xs <==> x == xs[0] || x in xs[1..];
      var head := f(xs[0]);
      if head.Some? {
        assert forall t :: Some(t) in Present(head.value) <==> t in head.value by {
          forall t
            ensures Some(t) in Present(head.value) <==> t in head.value
          {
            if Some(t) in Present(head.value) {
              var i :| 0 <= i < |head.value| && Present(head.value)[i] == Some(t);
            }
            if t in head.value {
              var i :| 0 <= i < |head.value| && head.value[i] == t;
              assert Present(head.value)[i] == Some(t);
            }
          }
        }
        assert None !in Present(head.value);
      }
    }
  }

  /** When no array is absent, the strict flattening holds no undefined slot
      and is the forgiving one. */
  lemma {:induction false} FlatSlotsAllPresent<S(!new), T(!new)>(xs: seq<S>, f: S -> Option<seq<T>>)
    requires forall x :: x in xs ==> f(x).Some?
    ensures FlatSlots(xs, f) == Present(FlatOrEmpty(xs, f))
  {
    if |xs| > 0 {
      FlatSlotsAllPresent(xs[1..], f);
      PresentAppend(f(xs[0]).value, FlatOrEmpty(xs[1..], f));
    }
  }

  lemma PresentAppend<T>(a: seq<T>, b: seq<T>)
    ensures Present(a + b) == Present(a) + Present(b)
  {
  }

  /** Flattening distributes over concatenation. */
  lemma {:induction false} FlatOrEmptyAppend<S(!new), T(!new)>(xs: seq<S>, ys: seq<S>, f: S -> Option<seq<T>>)
    ensures FlatOrEmpty(xs + ys, f) == FlatOrEmpty(xs, f) + FlatOrEmpty(ys, f)
  {
    if |xs| > 0 {
      assert (xs + ys)[1..] == xs[1..] + ys;
      FlatOrEmptyAppend(xs[1..], ys, f);
    } else {
      assert xs + ys == ys;
    }
  }

  /** `schema.flatMap(s => s.entityContainer || [])` */
  function AllContainers(m: ServiceMetadata): seq<EntityContainer> {
    FlatOrEmpty(m.schemas, SchemaContainers)
  }

  /** `...flatMap(c => c.entitySet || [])` over all containers */
  function AllEntitySets(m: ServiceMetadata): seq<EntitySet> {
    FlatOrEmpty(AllContainers(m), ContainerEntitySets)
  }

  /** `schema.flatMap(s => s.entityType || [])` */
  function AllEntityTypes(m: ServiceMetadata): seq<EntityType> {
    FlatOrEmpty(m.schemas, SchemaEntityTypes)
  }

  /** `schema.flatMap(s => s.association || [])` */
  function AllAssociations(m: ServiceMetadata): seq<Association> {
    FlatOrEmpty(m.schemas, SchemaAssociations)
  }

  /** `schema.flatMap(s => s.entityType)` */
  function EntityTypeSlots(m: ServiceMetadata): seq<Option<EntityType>> {
    FlatSlots(m.schemas, SchemaEntityTypes)
  }

  /** `schema.flatMap(s => s.association)` */
  function AssociationSlots(m: ServiceMetadata): seq<Option<Association>> {
    FlatSlots(m.schemas, SchemaAssociations)
  }

  /** Every schema declares its entity types. */
  predicate DeclaresEntityTypes(m: ServiceMetadata) {
    forall s :: s in m.schemas ==> s.entityTypes.Some?
  }

  /** Every schema declares its associations. */
  predicate DeclaresAssociations(m: ServiceMetadata) {
    forall s :: s in m.schemas ==> s.associations.Some?
  }
}
