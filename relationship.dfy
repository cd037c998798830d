/** The three revisions of `_checkForeignKeyRelationship`: a navigation
    search with an association fallback (Backup.js), a one-way test on direct
    navigation targets (BaseController.js), and a shared-property-name
    heuristic (HyperView.controller.js). Metadata loading is done before. */
module Relationship {
  import opened Js
  import opened Text
  import opened Edm
  import opened MetadataIndex

  /** Backup.js: the first navigation property of the first set's type that
      leads to the second set's type, if any. */
  function NavigationRelationship(m: ServiceMetadata, setName1: string, setName2: string): (r: Result<Option<NavInfo>>)
    ensures EntitySetProperties(m, setName1).Failure? ==>
              r == Failure(EntitySetProperties(m, setName1).error)
    ensures EntitySetProperties(m, setName1).Success? && EntitySetProperties(m, setName2).Failure? ==>
              r == Failure(EntitySetProperties(m, setName2).error)
    ensures EntitySetProperties(m, setName1).Success? && EntitySetProperties(m, setName2).Success? ==>
              r == FindNavigationProperty(m, EntitySetProperties(m, setName1).value.entityTypeName,
                                          EntitySetProperties(m, setName2).value.entityTypeName)
  {
    var info1 :- EntitySetProperties(m, setName1);
    var info2 :- EntitySetProperties(m, setName2);
    FindNavigationProperty(m, info1.entityTypeName, info2.entityTypeName)
  }

  /** `_getNavigationProperties` in BaseController.js: as in Backup.js, but
      `navProp.type.split` throws when a navigation property states no type. */
  function DirectNavigationProperties(m: ServiceMetadata, typeName: string): (r: Result<seq<NavInfo>>)
    ensures r.Success? <==>
              FindEntityType(m, typeName).Success? &&
              FindEntityType(m, typeName).value.navigationProperties.Some? &&
              forall p :: p in FindEntityType(m, typeName).value.navigationProperties.value ==> p.navType.Some?
    ensures r.Success? ==>
              var ps := FindEntityType(m, typeName).value.navigationProperties.value;
              TargetsStated(r.value, ps) &&
              forall i :: 0 <= i < |ps| ==>
                r.value[i].name == ps[i].name && r.value[i].relationship == ps[i].relationship &&
                r.value[i].fromRole == ps[i].fromRole && r.value[i].toRole == ps[i].toRole
    ensures FindEntityType(m, typeName).Failure? ==> r == Failure(FindEntityType(m, typeName).error)
    ensures r.Failure? && FindEntityType(m, typeName).Success? ==> r.error == TypeError
  {
    var t :- FindEntityType(m, typeName);
    if t.navigationProperties.None? then Failure(TypeError)
    else
      var ps := t.navigationProperties.value;
      if exists p :: p in ps && p.navType.None? then Failure(TypeError)
      else
        Success(seq(|ps|, i requires 0 <= i < |ps| =>
          NavInfo(ps[i].name, ps[i].relationship, ps[i].fromRole, ps[i].toRole,
                  Some(LastSegment(ps[i].navType.value)))))
  }

  /** The navigation properties of the entity type, when it is found. */
  function DeclaredNavigation(m: ServiceMetadata, typeName: string): seq<NavigationProperty> {
    match FindEntityType(m, typeName)
    case Success(t) => OrEmpty(t.navigationProperties)
    case Failure(_) => []
  }

  /** `navs` carries, one to one, the last segments of the stated types. */
  predicate TargetsStated(navs: seq<NavInfo>, ps: seq<NavigationProperty>) {
    |navs| == |ps| &&
    forall i :: 0 <= i < |ps| ==>
      ps[i].navType.Some? && navs[i].toEntityType == Some(LastSegment(ps[i].navType.value))
  }

  lemma StatedTargetFound(navs: seq<NavInfo>, ps: seq<NavigationProperty>, target: string)
    requires TargetsStated(navs, ps)
    ensures (exists i :: 0 <= i < |navs| && navs[i].toEntityType == Some(target)) <==>
            (exists p :: p in ps && p.navType.Some? && LastSegment(p.navType.value) == target)
  {
    if exists i :: 0 <= i < |navs| && navs[i].toEntityType == Some(target) {
      var i :| 0 <= i < |navs| && navs[i].toEntityType == Some(target);
      assert ps[i] in ps;
    }
    if exists p :: p in ps && p.navType.Some? && LastSegment(p.navType.value) == target {
      var p :| p in ps && p.navType.Some? && LastSegment(p.navType.value) == target;
      var i :| 0 <= i < |ps| && ps[i] == p;
      assert navs[i].toEntityType == Some(target);
    }
  }

  /** BaseController.js: true exactly when some navigation property of the
      first set's type states a type whose last segment names the second
      set's type. */
  function IsRelatedOneWay(m: ServiceMetadata, setName1: string, setName2: string): (r: Result<bool>)
    ensures EntitySetProperties(m, setName1).Failure? ==>
              r == Failure(EntitySetProperties(m, setName1).error)
    ensures EntitySetProperties(m, setName1).Success? && EntitySetProperties(m, setName2).Failure? ==>
              r == Failure(EntitySetProperties(m, setName2).error)
    ensures EntitySetProperties(m, setName1).Success? && EntitySetProperties(m, setName2).Success? ==>
              var navs := DirectNavigationProperties(m, EntitySetProperties(m, setName1).value.entityTypeName);
              (r.Success? <==> navs.Success?) && (navs.Failure? ==> r == Failure(navs.error))
    ensures EntitySetProperties(m, setName1).Success? && EntitySetProperties(m, setName2).Success? ==>
              var found := FindEntityType(m, EntitySetProperties(m, setName1).value.entityTypeName);
              found.Failure? ==> r == Failure(found.error)
    ensures r.Success? ==>
              EntitySetProperties(m, setName1).Success? && EntitySetProperties(m, setName2).Success?
    ensures r.Success? ==>
              (r.value <==>
                 exists p :: p in DeclaredNavigation(m, EntitySetProperties(m, setName1).value.entityTypeName) &&
                   p.navType.Some? &&
                   LastSegment(p.navType.value) == EntitySetProperties(m, setName2).value.entityTypeName)
  {
    var info1 :- EntitySetProperties(m, setName1);
    var info2 :- EntitySetProperties(m, setName2);
    var navs :- DirectNavigationProperties(m, info1.entityTypeName);
    var related := exists i :: 0 <= i < |navs| && navs[i].toEntityType == Some(info2.entityTypeName);
    StatedTargetFound(navs, DeclaredNavigation(m, info1.entityTypeName), info2.entityTypeName);
    Success(related)
  }

  /** Every navigation property of the type states a type whose last segment
      is non-empty, so no association look-up is needed. */
  predicate DirectTargetsOnly(m: ServiceMetadata, typeName: string) {
    FindEntityType(m, typeName).Success? &&
    FindEntityType(m, typeName).value.navigationProperties.Some? &&
    forall p :: p in FindEntityType(m, typeName).value.navigationProperties.value ==>
      NameTruthy(p.navType) && LastSegment(p.navType.value) != ""
  }

  /** Where every navigation target is stated directly, the Backup.js and
      BaseController.js mappings of the navigation properties coincide. */
  lemma DirectNavigationAgrees(m: ServiceMetadata, typeName: string)
    requires DirectTargetsOnly(m, typeName)
    ensures NavigationProperties(m, typeName) == DirectNavigationProperties(m, typeName)
  {
    var ps := FindEntityType(m, typeName).value.navigationProperties.value;
    assert forall p :: p in ps ==> p.navType.Some?;
    var backup := NavigationProperties(m, typeName).value;
    var base := DirectNavigationProperties(m, typeName).value;
    forall i | 0 <= i < |ps|
      ensures backup[i] == base[i]
    {
      assert ps[i] in ps;
    }
    assert backup == base;
  }

  /** A search over navigation properties that all state their target never
      consults an association: it finds one exactly when some target names
      the type. */
  lemma FindNavInDirect(m: ServiceMetadata, navs: seq<NavInfo>, target: string)
    requires forall i :: 0 <= i < |navs| ==> NameTruthy(navs[i].toEntityType)
    ensures FindNavIn(m, navs, target).Success?
    ensures FindNavIn(m, navs, target).value.Some? <==>
            exists i :: 0 <= i < |navs| && navs[i].toEntityType == Some(target)
  {
    var found := FindNavIn(m, navs, target);
    if found.Success? && found.value.Some? {
      var i :| FirstNavToAt(m, navs, target, i) && navs[i] == found.value.value;
      assert navs[i].toEntityType == Some(target);
    }
  }

  /** Where every navigation target is stated directly, the Backup.js search
      and the BaseController.js test agree: a navigation property is found
      exactly when the one-way test is true. */
  lemma OneWayAgreesWithNavigationSearch(m: ServiceMetadata, setName1: string, setName2: string)
    requires EntitySetProperties(m, setName1).Success? && EntitySetProperties(m, setName2).Success?
    requires DirectTargetsOnly(m, EntitySetProperties(m, setName1).value.entityTypeName)
    ensures NavigationRelationship(m, setName1, setName2).Success?
    ensures IsRelatedOneWay(m, setName1, setName2).Success?
    ensures NavigationRelationship(m, setName1, setName2).value.Some? <==>
            IsRelatedOneWay(m, setName1, setName2).value
  {
    var t1 := EntitySetProperties(m, setName1).value.entityTypeName;
    var t2 := EntitySetProperties(m, setName2).value.entityTypeName;
    DirectNavigationAgrees(m, t1);
    var navs := NavigationProperties(m, t1).value;
    FindNavInDirect(m, navs, t2);
    StatedTargetFound(navs, DeclaredNavigation(m, t1), t2);
  }

  /** The property names of an entity set, in declaration order. */
  function PropertyNames(s: EntitySetSummary): (names: seq<string>)
    ensures |names| == |s.properties|
    ensures forall i :: 0 <= i < |names| ==> names[i] == s.properties[i].name
  {
    seq(|s.properties|, i requires 0 <= i < |s.properties| => s.properties[i].name)
  }

  /** HyperView.controller.js: some property name of the first set is also a
      property name of the second. Absent metadata ends in a TypeError, since
      the routine assigns to its `const` holding the metadata. */
  function SharesPropertyName(arg: MetadataArg, setName1: string, setName2: string): (r: Result<bool>)
    ensures arg.Falsy? ==> r == Failure(TypeError)
    ensures r.Success? <==>
              !arg.Falsy? &&
              GuardedEntitySetProperties(arg, setName1).Success? &&
              GuardedEntitySetProperties(arg, setName2).Success?
    ensures !arg.Falsy? && GuardedEntitySetProperties(arg, setName1).Failure? ==>
              r == Failure(GuardedEntitySetProperties(arg, setName1).error)
    ensures !arg.Falsy? && GuardedEntitySetProperties(arg, setName1).Success? &&
            GuardedEntitySetProperties(arg, setName2).Failure? ==>
              r == Failure(GuardedEntitySetProperties(arg, setName2).error)
    ensures r.Success? ==>
              (r.value <==>
                 exists n :: n in PropertyNames(GuardedEntitySetProperties(arg, setName1).value) &&
                   n in PropertyNames(GuardedEntitySetProperties(arg, setName2).value))
  {
    if arg.Falsy? then Failure(TypeError)
    else
      var s1 :- GuardedEntitySetProperties(arg, setName1);
      var s2 :- GuardedEntitySetProperties(arg, setName2);
      var names1 := PropertyNames(s1);
      var names2 := PropertyNames(s2);
      Success(exists i :: 0 <= i < |names1| && names1[i] in names2)
  }

  /** The shared-name test does not depend on the order of its two sets. */
  lemma SharesPropertyNameSymmetric(arg: MetadataArg, setName1: string, setName2: string)
    ensures SharesPropertyName(arg, setName1, setName2).Success? <==>
            SharesPropertyName(arg, setName2, setName1).Success?
    ensures SharesPropertyName(arg, setName1, setName2).Success? ==>
            SharesPropertyName(arg, setName1, setName2).value == SharesPropertyName(arg, setName2, setName1).value
  {
  }
}
