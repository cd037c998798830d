/** Look-ups over the service metadata: an entity set's type and keyed
    properties, entity types and associations by name, navigation
    properties and their targets, and the two look-ups the form helpers use
    (`getEntityType`, `getProperty`). */
module MetadataIndex {
  import opened Js
  import opened Text
  import opened Seqs
  import opened Edm

  /** A property copied with its key flag: `{...prop, isKey}`. */
  datatype KeyedProperty = KeyedProperty(property: Property, isKey: bool)

  /** What `_getEntitySetProperties` returns. */
  datatype EntitySetInfo = EntitySetInfo(entityTypeName: string, properties: seq<KeyedProperty>)

  function SetNamed(name: string): EntitySet -> bool {
    (es: EntitySet) => es.name == name
  }

  function TypeNamed(name: string): EntityType -> bool {
    (t: EntityType) => t.name == name
  }

  function AssociationNamed(name: string): Association -> bool {
    (a: Association) => a.name == name
  }

  /** What a strict search over `xs.flatMap(x => x.f)` answers, stated over
      the forgiving flattening: a match is one of its elements, "none"
      means every array is present and nothing matches, and a throw means
      some array is absent. */
  lemma StrictSearchMeaning<S(!new), T(!new)>(xs: seq<S>, f: S -> Option<seq<T>>, p: T -> bool)
    ensures var r := FindStrict(FlatSlots(xs, f), p);
            (r.Success? && r.value.Some? ==> r.value.value in FlatOrEmpty(xs, f) && p(r.value.value)) &&
            (r == Success(None) <==>
               (forall x :: x in xs ==> f(x).Some?) && forall t :: t in FlatOrEmpty(xs, f) ==> !p(t)) &&
            (r.Failure? ==> r.error == TypeError && exists x :: x in xs && f(x).None?)
  {
    var slots := FlatSlots(xs, f);
    FlatSlotsMembers(xs, f);
    if (forall x :: x in xs ==> f(x).Some?) && forall t :: t in FlatOrEmpty(xs, f) ==> !p(t) {
      forall o | o in slots
        ensures o.Some? && !p(o.value)
      {
        if o.Some? {
          assert o.value in FlatOrEmpty(xs, f);
        }
      }
    }
  }

  /** Some `x` lacks its array, and no array before it holds a match: a
      search over `xs.flatMap(x => x.f)` reaches the undefined slot first. */
  ghost predicate AbsentBeforeMatch<S(!new), T(!new)>(xs: seq<S>, f: S -> Option<seq<T>>, p: T -> bool) {
    exists k :: 0 <= k < |xs| && f(xs[k]).None? && forall t :: t in FlatOrEmpty(xs[..k], f) ==> !p(t)
  }

  /** The strict search throws exactly when an absent array is reached
      before any match. */
  lemma {:induction false} StrictSearchThrows<S(!new), T(!new)>(xs: seq<S>, f: S -> Option<seq<T>>, p: T -> bool)
    ensures FindStrict(FlatSlots(xs, f), p).Failure? <==> AbsentBeforeMatch(xs, f, p)
  {
    if |xs| == 0 {
      assert FlatSlots(xs, f) == [];
    } else {
      var head, rest := f(xs[0]), xs[1..];
      assert FlatSlots(xs, f) == Slots(head) + FlatSlots(rest, f);
      FindStrictAppend(Slots(head), FlatSlots(rest, f), p);
      if head.None? {
        FindStrictAt(Slots(head), p, 0);
        assert xs[..0] == [];
        assert f(xs[0]).None? && forall t :: t in FlatOrEmpty(xs[..0], f) ==> !p(t);
      } else {
        FindStrictOfPresent(head.value, p);
        if Find(head.value, p).Some? {
          MatchInHeadNoThrow(xs, f, p, Find(head.value, p).value);
        } else {
          StrictSearchThrows(rest, f, p);
          AbsentBeforeMatchShift(xs, f, p);
        }
      }
    }
  }

  /** A match in the first array rules out an absent array before it. */
  lemma MatchInHeadNoThrow<S(!new), T(!new)>(xs: seq<S>, f: S -> Option<seq<T>>, p: T -> bool, t: T)
    requires |xs| > 0 && f(xs[0]).Some? && t in f(xs[0]).value && p(t)
    ensures !AbsentBeforeMatch(xs, f, p)
  {
    forall k | 0 <= k < |xs| && f(xs[k]).None?
      ensures t in FlatOrEmpty(xs[..k], f)
    {
      assert k > 0 && xs[0] in xs[..k];
    }
  }

  /** A present first array without a match leaves the question to the rest. */
  lemma AbsentBeforeMatchShift<S(!new), T(!new)>(xs: seq<S>, f: S -> Option<seq<T>>, p: T -> bool)
    requires |xs| > 0 && f(xs[0]).Some? && forall t :: t in f(xs[0]).value ==> !p(t)
    ensures AbsentBeforeMatch(xs, f, p) <==> AbsentBeforeMatch(xs[1..], f, p)
  {
    var rest := xs[1..];
    forall k | 0 <= k < |rest|
      ensures FlatOrEmpty(xs[..k + 1], f) == f(xs[0]).value + FlatOrEmpty(rest[..k], f)
    {
      assert xs[..k + 1][1..] == rest[..k];
    }
    if AbsentBeforeMatch(rest, f, p) {
      var k :| 0 <= k < |rest| && f(rest[k]).None? && forall t :: t in FlatOrEmpty(rest[..k], f) ==> !p(t);
      assert f(xs[k + 1]).None?;
    }
    if AbsentBeforeMatch(xs, f, p) {
      var k :| 0 <= k < |xs| && f(xs[k]).None? && forall t :: t in FlatOrEmpty(xs[..k], f) ==> !p(t);
      assert k > 0 && f(rest[k - 1]).None?;
    }
  }

  /** A strict search that does not throw answers what `find` answers over
      the forgiving flattening: the first match in schema order, or none. */
  lemma {:induction false} StrictSearchAgrees<S(!new), T(!new)>(xs: seq<S>, f: S -> Option<seq<T>>, p: T -> bool)
    ensures FindStrict(FlatSlots(xs, f), p).Success? ==>
              FindStrict(FlatSlots(xs, f), p).value == Find(FlatOrEmpty(xs, f), p)
  {
    if |xs| > 0 {
      var head, rest := f(xs[0]), FlatSlots(xs[1..], f);
      assert FlatSlots(xs, f) == Slots(head) + rest;
      assert FlatOrEmpty(xs, f) == OrEmpty(head) + FlatOrEmpty(xs[1..], f);
      StrictSearchAgrees(xs[1..], f, p);
      FindStrictAppend(Slots(head), rest, p);
      if head.Some? {
        FindStrictOfPresent(head.value, p);
        FindAppend(head.value, FlatOrEmpty(xs[1..], f), p);
      } else {
        FindStrictAt(Slots(head), p, 0);
      }
    }
  }

  /** `ps` lists the type's properties in declaration order, each flagged as
      a key exactly when its name is among the key references. */
  predicate KeysMarked(ps: seq<KeyedProperty>, t: EntityType) {
    |ps| == |t.properties| &&
    forall i :: 0 <= i < |ps| ==>
      ps[i].property == t.properties[i] && (ps[i].isKey <==> t.properties[i].name in t.key)
  }

  function MarkKeys(t: EntityType): (ps: seq<KeyedProperty>)
    ensures KeysMarked(ps, t)
  {
    seq(|t.properties|, i requires 0 <= i < |t.properties| =>
      KeyedProperty(t.properties[i], t.properties[i].name in t.key))
  }

  /** Entity set `i` is the first one, across all schemas' containers, that
      carries the name. */
  predicate FirstSetNamedAt(m: ServiceMetadata, name: string, i: int) {
    0 <= i < |AllEntitySets(m)| && AllEntitySets(m)[i].name == name &&
    forall j :: 0 <= j < i ==> AllEntitySets(m)[j].name != name
  }

  /** The type part of `_getEntitySetProperties` (the unguarded revision):
      the first entity type with the name, and its properties with their key
      flags. */
  function KeyedTypeProperties(m: ServiceMetadata, typeName: string): (r: Result<EntitySetInfo>)
    ensures r.Failure? ==> r.error == EntityTypeNotFound(typeName)
    ensures r.Failure? <==> forall t :: t in AllEntityTypes(m) ==> t.name != typeName
    ensures r.Success? ==> r.value.entityTypeName == typeName
    ensures r.Success? ==>
              exists j :: FirstAt(AllEntityTypes(m), TypeNamed(typeName), j) &&
                KeysMarked(r.value.properties, AllEntityTypes(m)[j])
  {
    var types := AllEntityTypes(m);
    match FirstIndex(types, TypeNamed(typeName))
    case None => Failure(EntityTypeNotFound(typeName))
    case Some(j) =>
      assert FirstAt(types, TypeNamed(typeName), j);
      Success(EntitySetInfo(types[j].name, MarkKeys(types[j])))
  }

  /** `_getEntitySetProperties` (the unguarded revision): the first entity set
      with the name, its type found by the last segment of the qualified
      type name, and that type's properties with their key flags. */
  function EntitySetProperties(m: ServiceMetadata, setName: string): (r: Result<EntitySetInfo>)
    ensures r == Failure(EntitySetNotFound(setName)) <==>
              forall es :: es in AllEntitySets(m) ==> es.name != setName
    ensures r.Failure? ==> r == Failure(EntitySetNotFound(setName)) || r.error.EntityTypeNotFound?
    ensures r.Success? <==>
              exists i :: FirstSetNamedAt(m, setName, i) &&
                exists t :: t in AllEntityTypes(m) && t.name == LastSegment(AllEntitySets(m)[i].entityType)
    ensures r.Failure? && r.error.EntityTypeNotFound? <==>
              exists i :: FirstSetNamedAt(m, setName, i) &&
                forall t :: t in AllEntityTypes(m) ==> t.name != LastSegment(AllEntitySets(m)[i].entityType)
    ensures r.Failure? && r.error.EntityTypeNotFound? ==>
              exists i :: FirstSetNamedAt(m, setName, i) &&
                r.error.entityType == LastSegment(AllEntitySets(m)[i].entityType)
    ensures r.Success? ==>
              exists i :: FirstSetNamedAt(m, setName, i) &&
                r.value.entityTypeName == LastSegment(AllEntitySets(m)[i].entityType)
    ensures r.Success? ==>
              exists j :: FirstAt(AllEntityTypes(m), TypeNamed(r.value.entityTypeName), j) &&
                KeysMarked(r.value.properties, AllEntityTypes(m)[j])
  {
    var sets := AllEntitySets(m);
    match FirstIndex(sets, SetNamed(setName))
    case None => Failure(EntitySetNotFound(setName))
    case Some(i) =>
      assert FirstSetNamedAt(m, setName, i);
      assert forall k :: FirstSetNamedAt(m, setName, k) ==> k == i;
      KeyedTypeProperties(m, LastSegment(sets[i].entityType))
  }

  /** What the HyperView revision receives as its metadata argument. */
  datatype MetadataArg =
    | Falsy                           // null, undefined, ...
    | Primitive                       // a truthy value that is not an object
    | Document(doc: ServiceMetadata)

  /** `{name, type, isKey}`: the HyperView projection of a property. */
  datatype PropertySummary = PropertySummary(name: string, edmType: string, isKey: bool)

  datatype EntitySetSummary = EntitySetSummary(entityTypeName: string, properties: seq<PropertySummary>)

  /** `ps` projects the type's properties in declaration order. */
  predicate Projected(ps: seq<PropertySummary>, t: EntityType) {
    |ps| == |t.properties| &&
    forall i :: 0 <= i < |ps| ==>
      ps[i] == PropertySummary(t.properties[i].name, t.properties[i].edmType, t.properties[i].name in t.key)
  }

  function Summarize(ps: seq<KeyedProperty>): (r: seq<PropertySummary>)
    ensures |r| == |ps|
    ensures forall i :: 0 <= i < |ps| ==>
              r[i] == PropertySummary(ps[i].property.name, ps[i].property.edmType, ps[i].isKey)
  {
    seq(|ps|, i requires 0 <= i < |ps| =>
      PropertySummary(ps[i].property.name, ps[i].property.edmType, ps[i].isKey))
  }

  /** The entity-type half of the HyperView look-up: the type is searched
      by the last segment of the set's qualified type name over
      `flatMap(s => s.entityType)`, without a fallback, which is the search
      of `_findEntityType`; the not-found error names the qualified type. */
  function TypeSummary(m: ServiceMetadata, qualified: string): (r: Result<EntitySetSummary>)
    ensures r.Failure? ==> r == Failure(TypeError) || r == Failure(EntityTypeNotFound(qualified))
    ensures r == Failure(TypeError) ==> !DeclaresEntityTypes(m)
    ensures r == Failure(TypeError) <==> AbsentBeforeMatch(m.schemas, SchemaEntityTypes, TypeNamed(LastSegment(qualified)))
    ensures r == Failure(EntityTypeNotFound(qualified)) <==>
              DeclaresEntityTypes(m) && forall t :: t in AllEntityTypes(m) ==> t.name != LastSegment(qualified)
    ensures r.Success? ==> r.value.entityTypeName == LastSegment(qualified)
    ensures r.Success? ==>
              exists j :: FirstAt(AllEntityTypes(m), TypeNamed(LastSegment(qualified)), j) &&
                Projected(r.value.properties, AllEntityTypes(m)[j])
  {
    match FindEntityType(m, LastSegment(qualified))
    case Failure(e) => if e == TypeError then Failure(TypeError) else Failure(EntityTypeNotFound(qualified))
    case Success(t) =>
      var ps := Summarize(MarkKeys(t));
      assert Projected(ps, t);
      Success(EntitySetSummary(t.name, ps))
  }

  /** The look-up part of `_getEntitySetProperties` in HyperView, once the
      argument is a document: the first entity set with the name, then its
      type. */
  function DocumentEntitySetProperties(m: ServiceMetadata, setName: string): (r: Result<EntitySetSummary>)
    ensures r.Failure? ==>
              r == Failure(TypeError) || r == Failure(EntitySetNotFound(setName)) || r.error.EntityTypeNotFound?
    ensures r == Failure(TypeError) ==> !DeclaresEntityTypes(m)
    ensures r == Failure(TypeError) <==>
              exists i :: FirstSetNamedAt(m, setName, i) &&
                AbsentBeforeMatch(m.schemas, SchemaEntityTypes, TypeNamed(LastSegment(AllEntitySets(m)[i].entityType)))
    ensures r == Failure(EntitySetNotFound(setName)) <==> forall es :: es in AllEntitySets(m) ==> es.name != setName
    ensures r.Failure? && r.error.EntityTypeNotFound? <==>
              DeclaresEntityTypes(m) &&
              exists i :: FirstSetNamedAt(m, setName, i) &&
                forall t :: t in AllEntityTypes(m) ==> t.name != LastSegment(AllEntitySets(m)[i].entityType)
    ensures r.Failure? && r.error.EntityTypeNotFound? ==>
              exists i :: FirstSetNamedAt(m, setName, i) && r.error.entityType == AllEntitySets(m)[i].entityType
    ensures r.Success? ==>
              exists i :: FirstSetNamedAt(m, setName, i) &&
                r.value.entityTypeName == LastSegment(AllEntitySets(m)[i].entityType)
    ensures r.Success? ==>
              exists j :: FirstAt(AllEntityTypes(m), TypeNamed(r.value.entityTypeName), j) &&
                Projected(r.value.properties, AllEntityTypes(m)[j])
  {
    var sets := AllEntitySets(m);
    match FirstIndex(sets, SetNamed(setName))
    case None => Failure(EntitySetNotFound(setName))
    case Some(i) =>
      assert FirstSetNamedAt(m, setName, i);
      assert forall k :: FirstSetNamedAt(m, setName, k) ==> k == i;
      TypeSummary(m, sets[i].entityType)
  }

  /** `_getEntitySetProperties` in HyperView: the argument guards come
      first, then the look-up. */
  function GuardedEntitySetProperties(arg: MetadataArg, setName: string): (r: Result<EntitySetSummary>)
    ensures arg.Falsy? <==> r == Failure(MetadataMissing)
    ensures arg.Primitive? <==> r == Failure(MetadataNotObject)
    ensures r == Failure(TypeError) ==> arg.Document? && !DeclaresEntityTypes(arg.doc)
    ensures arg.Document? && r.Failure? ==>
              r == Failure(TypeError) || r == Failure(EntitySetNotFound(setName)) || r.error.EntityTypeNotFound?
    ensures arg.Document? ==>
              (r == Failure(TypeError) <==>
                 exists i :: FirstSetNamedAt(arg.doc, setName, i) &&
                   AbsentBeforeMatch(arg.doc.schemas, SchemaEntityTypes, TypeNamed(LastSegment(AllEntitySets(arg.doc)[i].entityType))))
    ensures arg.Document? ==>
              (r == Failure(EntitySetNotFound(setName)) <==>
                 forall es :: es in AllEntitySets(arg.doc) ==> es.name != setName)
    ensures arg.Document? ==>
              (r.Failure? && r.error.EntityTypeNotFound? <==>
                 DeclaresEntityTypes(arg.doc) &&
                 exists i :: FirstSetNamedAt(arg.doc, setName, i) &&
                   forall t :: t in AllEntityTypes(arg.doc) ==> t.name != LastSegment(AllEntitySets(arg.doc)[i].entityType))
    ensures r.Success? ==>
              arg.Document? &&
              exists i :: FirstSetNamedAt(arg.doc, setName, i) &&
                r.value.entityTypeName == LastSegment(AllEntitySets(arg.doc)[i].entityType)
    ensures r.Success? ==>
              exists j :: FirstAt(AllEntityTypes(arg.doc), TypeNamed(r.value.entityTypeName), j) &&
                Projected(r.value.properties, AllEntityTypes(arg.doc)[j])
  {
    match arg
    case Falsy => Failure(MetadataMissing)
    case Primitive => Failure(MetadataNotObject)
    case Document(m) => DocumentEntitySetProperties(m, setName)
  }

  /** When every schema declares its entity types, the two revisions of
      `_getEntitySetProperties` agree: both succeed together with the same
      properties (projected), and both miss the same entity sets. */
  lemma GuardedAgreesWithUnguarded(m: ServiceMetadata, setName: string)
    requires DeclaresEntityTypes(m)
    ensures GuardedEntitySetProperties(Document(m), setName).Success? <==>
            EntitySetProperties(m, setName).Success?
    ensures EntitySetProperties(m, setName).Success? ==>
            GuardedEntitySetProperties(Document(m), setName).value ==
              EntitySetSummary(EntitySetProperties(m, setName).value.entityTypeName,
                               Summarize(EntitySetProperties(m, setName).value.properties))
  {
    assert GuardedEntitySetProperties(Document(m), setName) == DocumentEntitySetProperties(m, setName);
    FlatSlotsAllPresent(m.schemas, SchemaEntityTypes);
    var sets := AllEntitySets(m);
    match FirstIndex(sets, SetNamed(setName))
    case None =>
      assert EntitySetProperties(m, setName) == Failure(EntitySetNotFound(setName));
      assert Find(sets, SetNamed(setName)) == None;
    case Some(i) =>
      var es := sets[i];
      var typeName := LastSegment(es.entityType);
      FindIsFirst(sets, SetNamed(setName), i);
      FindStrictOfPresent(AllEntityTypes(m), TypeNamed(typeName));
      assert FindStrict(EntityTypeSlots(m), TypeNamed(typeName)) == Success(Find(AllEntityTypes(m), TypeNamed(typeName)));
      match Find(AllEntityTypes(m), TypeNamed(typeName))
      case None =>
        assert EntitySetProperties(m, setName) == Failure(EntityTypeNotFound(typeName));
        assert DocumentEntitySetProperties(m, setName) == Failure(EntityTypeNotFound(es.entityType));
      case Some(t) =>
        assert EntitySetProperties(m, setName) == Success(EntitySetInfo(t.name, MarkKeys(t)));
        assert DocumentEntitySetProperties(m, setName) == Success(EntitySetSummary(t.name, Summarize(MarkKeys(t))));
  }

  /** `_findEntityType`: a strict search over `flatMap(s => s.entityType)`.
      A schema without entity types met before a match throws a TypeError. */
  function FindEntityType(m: ServiceMetadata, name: string): (r: Result<EntityType>)
    ensures r.Success? ==> r.value in AllEntityTypes(m) && r.value.name == name
    ensures r.Success? ==> exists j :: FirstAt(AllEntityTypes(m), TypeNamed(name), j) && AllEntityTypes(m)[j] == r.value
    ensures r.Failure? ==> r.error == TypeError || r.error == EntityTypeNotFound(name)
    ensures r == Failure(EntityTypeNotFound(name)) <==>
              DeclaresEntityTypes(m) && forall t :: t in AllEntityTypes(m) ==> t.name != name
    ensures r == Failure(TypeError) ==> !DeclaresEntityTypes(m)
    ensures r == Failure(TypeError) <==> AbsentBeforeMatch(m.schemas, SchemaEntityTypes, TypeNamed(name))
  {
    var p := TypeNamed(name);
    StrictSearchMeaning(m.schemas, SchemaEntityTypes, p);
    StrictSearchAgrees(m.schemas, SchemaEntityTypes, p);
    StrictSearchThrows(m.schemas, SchemaEntityTypes, p);
    FindFirstAt(AllEntityTypes(m), p);
    assert DeclaresEntityTypes(m) <==> forall s :: s in m.schemas ==> SchemaEntityTypes(s).Some?;
    match FindStrict(EntityTypeSlots(m), p)
    case Failure(e) => Failure(e)
    case Success(None) =>
      assert DeclaresEntityTypes(m) && forall t :: t in AllEntityTypes(m) ==> !p(t);
      Failure(EntityTypeNotFound(name))
    case Success(Some(t)) =>
      assert Find(AllEntityTypes(m), p) == Some(t);
      Success(t)
  }

  /** With every schema declaring its entity types the strict search is the
      first-match search over all entity types. */
  lemma FindEntityTypeDeclared(m: ServiceMetadata, name: string)
    requires DeclaresEntityTypes(m)
    ensures FindEntityType(m, name).Success? <==> Find(AllEntityTypes(m), TypeNamed(name)).Some?
    ensures FindEntityType(m, name).Success? ==>
              Find(AllEntityTypes(m), TypeNamed(name)) == Some(FindEntityType(m, name).value)
  {
    FlatSlotsAllPresent(m.schemas, SchemaEntityTypes);
    FindStrictOfPresent(AllEntityTypes(m), TypeNamed(name));
  }

  /** `_findAssociation`: the association named by the last segment of the
      relationship, searched strictly over `flatMap(s => s.association)`. */
  function FindAssociation(m: ServiceMetadata, relationship: string): (r: Result<Association>)
    ensures r.Success? ==>
              Some(r.value) in AssociationSlots(m) && r.value.name == LastSegment(relationship)
    ensures r.Success? ==>
              exists j :: FirstAt(AllAssociations(m), AssociationNamed(LastSegment(relationship)), j) &&
                AllAssociations(m)[j] == r.value
    ensures r.Failure? ==> r.error == TypeError || r.error == AssociationNotFound(relationship)
    ensures r == Failure(AssociationNotFound(relationship)) <==>
              DeclaresAssociations(m) &&
              forall a :: Some(a) in AssociationSlots(m) ==> a.name != LastSegment(relationship)
    ensures r == Failure(TypeError) ==> !DeclaresAssociations(m)
    ensures r == Failure(TypeError) <==> AbsentBeforeMatch(m.schemas, SchemaAssociations, AssociationNamed(LastSegment(relationship)))
  {
    var p := AssociationNamed(LastSegment(relationship));
    StrictSearchMeaning(m.schemas, SchemaAssociations, p);
    StrictSearchAgrees(m.schemas, SchemaAssociations, p);
    StrictSearchThrows(m.schemas, SchemaAssociations, p);
    FindFirstAt(AllAssociations(m), p);
    FlatSlotsMembers(m.schemas, SchemaAssociations);
    assert DeclaresAssociations(m) <==> forall s :: s in m.schemas ==> SchemaAssociations(s).Some?;
    match FindStrict(AssociationSlots(m), p)
    case Failure(e) => Failure(e)
    case Success(None) => Failure(AssociationNotFound(relationship))
    case Success(Some(a)) =>
      assert Find(AllAssociations(m), p) == Some(a);
      Success(a)
  }

  /** A navigation property as `_getNavigationProperties` maps it;
      `toEntityType` is the last segment of a truthy `type`, else null. */
  datatype NavInfo = NavInfo(
    name: string,
    relationship: string,
    fromRole: string,
    toRole: string,
    toEntityType: Option<string>)

  /** The roles of a navigation property are the two distinct ends of its
      association, as a well-formed document has them. */
  predicate RolesMatch(n: NavInfo, a: Association) {
    a.end0.role != a.end1.role &&
    ((n.fromRole == a.end0.role && n.toRole == a.end1.role) ||
     (n.fromRole == a.end1.role && n.toRole == a.end0.role))
  }

  /** `_getEntityTypeFromAssociation`: `end[1]`'s type when the navigation
      starts at `end[0]`, otherwise `end[0]`'s, cut to the last segment. */
  function EntityTypeFromAssociation(m: ServiceMetadata, n: NavInfo): (r: Result<string>)
    ensures r.Failure? <==> FindAssociation(m, n.relationship).Failure?
    ensures r.Failure? ==> r.error == FindAssociation(m, n.relationship).error
    ensures r.Success? ==>
              var a := FindAssociation(m, n.relationship).value;
              (n.fromRole == a.end0.role ==> r.value == LastSegment(a.end1.endType)) &&
              (n.fromRole != a.end0.role ==> r.value == LastSegment(a.end0.endType)) &&
              (RolesMatch(n, a) ==>
                 r.value == LastSegment(if a.end0.role == n.toRole then a.end0.endType else a.end1.endType))
  {
    var a :- FindAssociation(m, n.relationship);
    if n.fromRole == a.end0.role then Success(LastSegment(a.end1.endType))
    else Success(LastSegment(a.end0.endType))
  }

  /** The mapping step of `_getNavigationProperties` in Backup.js. */
  function ToNavInfo(p: NavigationProperty): NavInfo {
    NavInfo(p.name, p.relationship, p.fromRole, p.toRole,
            if NameTruthy(p.navType) then Some(LastSegment(p.navType.value)) else None)
  }

  /** `navs` maps `ps` one to one, keeping names and roles, with a direct
      target exactly when the declared `type` is truthy. */
  predicate MapsNavigation(navs: seq<NavInfo>, ps: seq<NavigationProperty>) {
    |navs| == |ps| &&
    forall i :: 0 <= i < |ps| ==>
      navs[i].name == ps[i].name && navs[i].relationship == ps[i].relationship &&
      navs[i].fromRole == ps[i].fromRole && navs[i].toRole == ps[i].toRole &&
      (navs[i].toEntityType.Some? <==> NameTruthy(ps[i].navType)) &&
      (navs[i].toEntityType.Some? ==> navs[i].toEntityType.value == LastSegment(ps[i].navType.value))
  }

  /** `_getNavigationProperties` (Backup.js): the entity type's navigation
      properties, mapped; a type without `navigationProperty` throws. */
  function NavigationProperties(m: ServiceMetadata, typeName: string): (r: Result<seq<NavInfo>>)
    ensures r.Success? <==>
              FindEntityType(m, typeName).Success? &&
              FindEntityType(m, typeName).value.navigationProperties.Some?
    ensures r.Success? ==>
              MapsNavigation(r.value, FindEntityType(m, typeName).value.navigationProperties.value)
    ensures r.Failure? && FindEntityType(m, typeName).Success? ==> r.error == TypeError
    ensures FindEntityType(m, typeName).Failure? ==> r == Failure(FindEntityType(m, typeName).error)
  {
    var t :- FindEntityType(m, typeName);
    if t.navigationProperties.None? then Failure(TypeError)
    else
      var ps := t.navigationProperties.value;
      Success(seq(|ps|, i requires 0 <= i < |ps| => ToNavInfo(ps[i])))
  }

  /** The type a navigation property leads to: its direct target if truthy,
      otherwise through its association. */
  function NavTarget(m: ServiceMetadata, n: NavInfo): Result<string> {
    if NameTruthy(n.toEntityType) then Success(n.toEntityType.value)
    else EntityTypeFromAssociation(m, n)
  }

  /** Navigation property `i` is the first of `navs` that leads to `target`,
      every earlier one resolving to another type. */
  predicate FirstNavToAt(m: ServiceMetadata, navs: seq<NavInfo>, target: string, i: int) {
    0 <= i < |navs| && NavTarget(m, navs[i]) == Success(target) &&
    forall j :: 0 <= j < i ==> NavTarget(m, navs[j]).Success? && NavTarget(m, navs[j]).value != target
  }

  /** The `find` of `_findNavigationProperty`: the first navigation property
      leading to `target`; an association look-up that throws on the way
      ends the search. */
  function FindNavIn(m: ServiceMetadata, navs: seq<NavInfo>, target: string): (r: Result<Option<NavInfo>>)
    ensures r.Success? && r.value.Some? ==>
              exists i :: FirstNavToAt(m, navs, target, i) && navs[i] == r.value.value
    ensures r == Success(None) <==>
              forall j :: 0 <= j < |navs| ==>
                NavTarget(m, navs[j]).Success? && NavTarget(m, navs[j]).value != target
    ensures r.Failure? ==>
              exists i :: 0 <= i < |navs| && NavTarget(m, navs[i]) == Failure(r.error) &&
                forall j :: 0 <= j < i ==>
                  NavTarget(m, navs[j]).Success? && NavTarget(m, navs[j]).value != target
  {
    match FirstIndex(navs, NavStops(m, target))
    case None => Success(None)
    case Some(i) =>
      if NavTarget(m, navs[i]).Failure? then Failure(NavTarget(m, navs[i]).error)
      else
        assert FirstNavToAt(m, navs, target, i);
        Success(Some(navs[i]))
  }

  /** Where the search stops: a navigation property leading to the target,
      or one whose association look-up throws. */
  function NavStops(m: ServiceMetadata, target: string): NavInfo -> bool {
    (n: NavInfo) => !(NavTarget(m, n).Success? && NavTarget(m, n).value != target)
  }

  /** `_findNavigationProperty`. */
  function FindNavigationProperty(m: ServiceMetadata, typeName1: string, typeName2: string): (r: Result<Option<NavInfo>>)
    ensures r.Success? ==> NavigationProperties(m, typeName1).Success?
    ensures NavigationProperties(m, typeName1).Success? ==>
              r == FindNavIn(m, NavigationProperties(m, typeName1).value, typeName2)
    ensures NavigationProperties(m, typeName1).Failure? ==>
              r == Failure(NavigationProperties(m, typeName1).error)
  {
    var navs :- NavigationProperties(m, typeName1);
    FindNavIn(m, navs, typeName2)
  }

  /** What `getEntityType` returns: the attached `__entityType`, else the
      qualified type name (a string, on which later property reads yield
      undefined), else null. */
  datatype EntityTypeRef = NoType | TypeName(qualified: string) | Resolved(entityType: EntityType)

  function RefOf(es: EntitySet): EntityTypeRef {
    if es.resolvedType.Some? then Resolved(es.resolvedType.value)
    else if es.entityType != "" then TypeName(es.entityType)
    else NoType
  }

  /** The containers' part of `getEntityType`: `container.entitySet.find`
      on each in turn; a container without `entitySet` throws. */
  function LookupInContainers(cs: seq<EntityContainer>, name: string): Result<Option<EntitySet>> {
    if |cs| == 0 then Success(None)
    else if cs[0].entitySets.None? then Failure(TypeError)
    else
      match Find(cs[0].entitySets.value, SetNamed(name))
      case Some(es) => Success(Some(es))
      case None => LookupInContainers(cs[1..], name)
  }

  /** The schemas' part: schemas without `entityContainer` are skipped. */
  function LookupInSchemas(ss: seq<Schema>, name: string): Result<Option<EntitySet>> {
    if |ss| == 0 then Success(None)
    else if ss[0].containers.None? then LookupInSchemas(ss[1..], name)
    else
      var r := LookupInContainers(ss[0].containers.value, name);
      if r != Success(None) then r else LookupInSchemas(ss[1..], name)
  }

  /** Every container declares its entity sets. */
  predicate DeclaresEntitySets(m: ServiceMetadata) {
    forall c :: c in AllContainers(m) ==> c.entitySets.Some?
  }

  /** The set-by-set search of `getEntityType` finds the same entity set as
      the flattened search of `_getEntitySetProperties` when no container
      lacks its entity sets. */
  lemma {:induction false} LookupInContainersIsFind(cs: seq<EntityContainer>, name: string)
    requires forall c :: c in cs ==> c.entitySets.Some?
    ensures LookupInContainers(cs, name) == Success(Find(FlatOrEmpty(cs, ContainerEntitySets), SetNamed(name)))
  {
    if |cs| > 0 {
      LookupInContainersIsFind(cs[1..], name);
      FindAppend(cs[0].entitySets.value, FlatOrEmpty(cs[1..], ContainerEntitySets), SetNamed(name));
    }
  }

  lemma {:induction false} LookupInSchemasIsFind(ss: seq<Schema>, name: string)
    requires forall c :: c in FlatOrEmpty(ss, SchemaContainers) ==> c.entitySets.Some?
    ensures LookupInSchemas(ss, name) ==
            Success(Find(FlatOrEmpty(FlatOrEmpty(ss, SchemaContainers), ContainerEntitySets), SetNamed(name)))
  {
    if |ss| > 0 {
      var cs := OrEmpty(ss[0].containers);
      var rest := FlatOrEmpty(ss[1..], SchemaContainers);
      assert FlatOrEmpty(ss, SchemaContainers) == cs + rest;
      LookupInSchemasIsFind(ss[1..], name);
      FlatOrEmptyAppend(cs, rest, ContainerEntitySets);
      FindAppend(FlatOrEmpty(cs, ContainerEntitySets), FlatOrEmpty(rest, ContainerEntitySets), SetNamed(name));
      if ss[0].containers.Some? {
        LookupInContainersIsFind(cs, name);
      }
    }
  }

  /** `getEntityType` (after the metadata has loaded). */
  method GetEntityType(m: ServiceMetadata, setName: string) returns (r: Result<EntityTypeRef>)
    ensures r.Failure? <==> LookupInSchemas(m.schemas, setName).Failure?
    ensures r.Failure? ==> r.error == TypeError
    ensures LookupInSchemas(m.schemas, setName) == Success(None) ==> r == Success(NoType)
    ensures LookupInSchemas(m.schemas, setName).Success? && LookupInSchemas(m.schemas, setName).value.Some? ==>
              r == Success(RefOf(LookupInSchemas(m.schemas, setName).value.value))
  {
    var ss := m.schemas;
    var i := 0;
    while i < |ss|
      invariant 0 <= i <= |ss|
      invariant LookupInSchemas(ss, setName) == LookupInSchemas(ss[i..], setName)
    {
      if ss[i].containers.Some? {
        var cs := ss[i].containers.value;
        var j := 0;
        while j < |cs|
          invariant 0 <= j <= |cs|
          invariant LookupInContainers(cs, setName) == LookupInContainers(cs[j..], setName)
        {
          if cs[j].entitySets.None? {
            return Failure(TypeError);
          }
          var found := Find(cs[j].entitySets.value, SetNamed(setName));
          if found.Some? {
            return Success(RefOf(found.value));
          }
          assert cs[j..][1..] == cs[j + 1..];
          j := j + 1;
        }
      }
      assert ss[i..][1..] == ss[i + 1..];
      i := i + 1;
    }
    return Success(NoType);
  }

  /** The property with the name that comes last in declaration order. */
  function LastNamed(ps: seq<Property>, key: string): (r: Option<Property>)
    ensures r.None? <==> forall p :: p in ps ==> p.name != key
    ensures r.Some? ==>
              exists i :: 0 <= i < |ps| && ps[i] == r.value && r.value.name == key &&
                forall j :: i < j < |ps| ==> ps[j].name != key
  {
    if |ps| == 0 then None
    else if ps[|ps| - 1].name == key then Some(ps[|ps| - 1])
    else
      var r := LastNamed(ps[..|ps| - 1], key);
      assert forall p :: p in ps ==> p in ps[..|ps| - 1] || p == ps[|ps| - 1];
      r
  }

  /** `getProperty`: null for a falsy type, a TypeError for a type name
      (a string has no `property` array), else the last matching property. */
  function PropertyOf(t: EntityTypeRef, key: string): Result<Option<Property>> {
    match t
    case NoType => Success(None)
    case TypeName(s) => if s == "" then Success(None) else Failure(TypeError)
    case Resolved(et) => Success(LastNamed(et.properties, key))
  }

  /** `getProperty`: every match overwrites the result, so the last wins. */
  method GetProperty(t: EntityTypeRef, key: string) returns (r: Result<Option<Property>>)
    ensures r == PropertyOf(t, key)
    ensures r.Success? && r.value.Some? ==> t.Resolved? && r.value.value in t.entityType.properties
  {
    if !t.Resolved? {
      if t.TypeName? && t.qualified != "" {
        return Failure(TypeError);
      }
      return Success(None);
    }
    var ps := t.entityType.properties;
    var result: Option<Property> := None;
    for i := 0 to |ps|
      invariant result == LastNamed(ps[..i], key)
    {
      if ps[i].name == key {
        result := Some(ps[i]);
      } else {
        assert ps[..i + 1][..i] == ps[..i];
      }
    }
    assert ps[..|ps|] == ps;
    return Success(result);
  }

  /** When property names are unique the last match is the only one, so it
      is also the first. */
  lemma LastNamedUnique(ps: seq<Property>, key: string)
    requires forall i, j :: 0 <= i < j < |ps| ==> ps[i].name != ps[j].name
    ensures LastNamed(ps, key) == Find(ps, (p: Property) => p.name == key)
  {
    var p := (p: Property) => p.name == key;
    match FirstIndex(ps, p)
    case None =>
    case Some(i) =>
      FindIsFirst(ps, p, i);
  }
}
