/** Join planning: how the secondary data sources of a combined view are
    split into an `$expand` list and a forced-join list, in the Backup.js
    revision (`loadCombinedData`, which awaits a navigation-based check) and
    in HyperView.controller.js (`loadCombinedDataV2`, which does not await
    its check and issues its requests from inside the loop). The reads
    themselves and the bindings they feed are not part of this model. */
module JoinPlanning {
  import opened Js
  import opened Text
  import opened Seqs
  import opened Edm
  import opened MetadataIndex
  import opened Relationship
  import opened Columns

  /** One data source passed to the combining routine: a model, an entity
      set of it and the property to join on. */
  datatype CombineOption = CombineOption(model: ODataModel, entitySet: string, joinProperty: Option<string>)

  function SameService(main: CombineOption): CombineOption -> bool {
    (o: CombineOption) => o.model.serviceUrl == main.model.serviceUrl
  }

  function OtherService(main: CombineOption): CombineOption -> bool {
    (o: CombineOption) => o.model.serviceUrl != main.model.serviceUrl
  }

  // ---------------------------------------------------------------------
  // Backup.js: `loadCombinedData`
  // ---------------------------------------------------------------------

  /** A secondary kept for `$expand`, tagged with the navigation property. */
  datatype ExpandEntry = ExpandEntry(option: CombineOption, navigationPropName: string)

  datatype Partition = Partition(expand: seq<ExpandEntry>, joins: seq<CombineOption>)

  /** `url === mainUrl && await _checkForeignKeyRelationship(...)`: the
      check runs on the main model's metadata, and only for a secondary of
      the same service. */
  function ForeignKeyCheck(m: ServiceMetadata, main: CombineOption, option: CombineOption): Result<Option<NavInfo>> {
    if option.model.serviceUrl != main.model.serviceUrl then Success(None)
    else NavigationRelationship(m, main.entitySet, option.entitySet)
  }

  /** What a secondary's check answers: a navigation property, none, or a
      thrown error. The partition below is stated for any such check. */
  type Check = CombineOption -> Result<Option<NavInfo>>

  function CheckOn(m: ServiceMetadata, main: CombineOption): Check {
    (o: CombineOption) => ForeignKeyCheck(m, main, o)
  }

  /** The secondaries for which the check finds a navigation property. */
  function RelatedBy(check: Check): CombineOption -> bool {
    (o: CombineOption) => check(o).Success? && check(o).value.Some?
  }

  /** The secondaries whose check answers without finding one. */
  function UnrelatedBy(check: Check): CombineOption -> bool {
    (o: CombineOption) => check(o).Success? && check(o).value.None?
  }

  function Related(m: ServiceMetadata, main: CombineOption): CombineOption -> bool {
    RelatedBy(CheckOn(m, main))
  }

  function Unrelated(m: ServiceMetadata, main: CombineOption): CombineOption -> bool {
    UnrelatedBy(CheckOn(m, main))
  }

  /** One secondary placed by the outcome of its check. */
  function Place(p: Partition, option: CombineOption, related: Option<NavInfo>): Partition {
    match related
    case Some(nav) => Partition(p.expand + [ExpandEntry(option, nav.name)], p.joins)
    case None => Partition(p.expand, p.joins + [option])
  }

  /** The partition after the loop has seen `subs`; a check that throws
      ends it. */
  function PartitionWith(subs: seq<CombineOption>, check: Check): Result<Partition>
    decreases |subs|
  {
    if |subs| == 0 then Success(Partition([], []))
    else
      var p :- PartitionWith(subs[..|subs| - 1], check);
      var related :- check(subs[|subs| - 1]);
      Success(Place(p, subs[|subs| - 1], related))
  }

  /** The partition of `loadCombinedData`, with the metadata check. */
  function PartitionOf(m: ServiceMetadata, main: CombineOption, subs: seq<CombineOption>): Result<Partition> {
    PartitionWith(subs, CheckOn(m, main))
  }

  /** Once a prefix throws, every longer run throws the same error. */
  lemma {:induction false} PartitionWithFailurePersists(subs: seq<CombineOption>, check: Check, k: nat)
    requires k <= |subs|
    requires PartitionWith(subs[..k], check).Failure?
    ensures PartitionWith(subs, check) == PartitionWith(subs[..k], check)
    decreases |subs| - k
  {
    if k < |subs| {
      var longer := subs[..k + 1];
      assert longer[..|longer| - 1] == subs[..k];
      assert subs[..k + 1] == subs[..k + 1][..k + 1];
      PartitionWithFailurePersists(subs, check, k + 1);
    } else {
      assert subs[..k] == subs;
    }
  }

  lemma PartitionFailurePersists(m: ServiceMetadata, main: CombineOption, subs: seq<CombineOption>, k: nat)
    requires k <= |subs|
    requires PartitionOf(m, main, subs[..k]).Failure?
    ensures PartitionOf(m, main, subs) == PartitionOf(m, main, subs[..k])
  {
    PartitionWithFailurePersists(subs, CheckOn(m, main), k);
  }

  /** One more secondary: the partition of a prefix one longer places it by
      its check, or throws its error. */
  lemma PartitionWithStep(subs: seq<CombineOption>, check: Check, i: nat, p: Partition)
    requires i < |subs|
    requires PartitionWith(subs[..i], check) == Success(p)
    ensures check(subs[i]).Failure? ==> PartitionWith(subs, check) == Failure(check(subs[i]).error)
    ensures check(subs[i]).Success? ==>
              PartitionWith(subs[..i + 1], check) == Success(Place(p, subs[i], check(subs[i]).value))
  {
    var longer := subs[..i + 1];
    assert longer[..|longer| - 1] == subs[..i] && longer[|longer| - 1] == subs[i];
    if check(subs[i]).Failure? {
      PartitionWithFailurePersists(subs, check, i + 1);
    }
  }

  /** The partition loop of `loadCombinedData` over the secondaries
      `subs` (options 1..n). */
  method PartitionOptions(m: ServiceMetadata, main: CombineOption, subs: seq<CombineOption>) returns (r: Result<Partition>)
    ensures r == PartitionOf(m, main, subs)
  {
    var expand: seq<ExpandEntry> := [];
    var joins: seq<CombineOption> := [];
    ghost var check := CheckOn(m, main);
    for i := 0 to |subs|
      invariant PartitionWith(subs[..i], check) == Success(Partition(expand, joins))
    {
      var current := subs[i];
      var found: Result<Option<NavInfo>> := Success(None);
      if current.model.serviceUrl == main.model.serviceUrl {
        found := NavigationRelationship(m, main.entitySet, current.entitySet);
      }
      assert found == check(current);
      PartitionWithStep(subs, check, i, Partition(expand, joins));
      if found.Failure? {
        return Failure(found.error);
      }
      var related := found.value;
      if related.Some? {
        expand := expand + [ExpandEntry(current, related.value.name)];
      } else {
        joins := joins + [current];
      }
    }
    assert subs[..|subs|] == subs;
    return Success(Partition(expand, joins));
  }

  /** The secondaries behind the expand entries, in order. */
  function ExpandOptions(expand: seq<ExpandEntry>): (os: seq<CombineOption>)
    ensures |os| == |expand|
    ensures forall i :: 0 <= i < |expand| ==> os[i] == expand[i].option
  {
    seq(|expand|, i requires 0 <= i < |expand| => expand[i].option)
  }

  /** The loop succeeds exactly when no check throws. */
  lemma {:induction false} PartitionWithSucceeds(subs: seq<CombineOption>, check: Check)
    ensures PartitionWith(subs, check).Success? <==> forall i :: 0 <= i < |subs| ==> check(subs[i]).Success?
    decreases |subs|
  {
    if |subs| > 0 {
      var init := subs[..|subs| - 1];
      PartitionWithSucceeds(init, check);
      assert forall i :: 0 <= i < |init| ==> init[i] == subs[i];
    }
  }

  lemma PartitionSucceeds(m: ServiceMetadata, main: CombineOption, subs: seq<CombineOption>)
    ensures PartitionOf(m, main, subs).Success? <==>
              forall i :: 0 <= i < |subs| ==> ForeignKeyCheck(m, main, subs[i]).Success?
  {
    PartitionWithSucceeds(subs, CheckOn(m, main));
    assert forall i :: 0 <= i < |subs| ==> CheckOn(m, main)(subs[i]) == ForeignKeyCheck(m, main, subs[i]);
  }

  /** A loop that throws does so with the error of the first check that
      throws. */
  lemma {:induction false} PartitionWithFirstError(subs: seq<CombineOption>, check: Check)
    ensures PartitionWith(subs, check).Failure? ==>
              exists i :: 0 <= i < |subs| && check(subs[i]).Failure? &&
                PartitionWith(subs, check).error == check(subs[i]).error &&
                forall j :: 0 <= j < i ==> check(subs[j]).Success?
    decreases |subs|
  {
    if |subs| > 0 {
      var init := subs[..|subs| - 1];
      PartitionWithFirstError(init, check);
      PartitionWithSucceeds(init, check);
      assert forall i :: 0 <= i < |init| ==> init[i] == subs[i];
      if PartitionWith(init, check).Success? && check(subs[|subs| - 1]).Failure? {
        assert forall j :: 0 <= j < |subs| - 1 ==> check(subs[j]).Success?;
      }
    }
  }

  lemma PartitionFirstError(m: ServiceMetadata, main: CombineOption, subs: seq<CombineOption>)
    ensures PartitionOf(m, main, subs).Failure? ==>
              exists i :: 0 <= i < |subs| && ForeignKeyCheck(m, main, subs[i]).Failure? &&
                PartitionOf(m, main, subs).error == ForeignKeyCheck(m, main, subs[i]).error &&
                forall j :: 0 <= j < i ==> ForeignKeyCheck(m, main, subs[j]).Success?
  {
    PartitionWithFirstError(subs, CheckOn(m, main));
    assert forall i :: 0 <= i < |subs| ==> CheckOn(m, main)(subs[i]) == ForeignKeyCheck(m, main, subs[i]);
  }

  lemma ExpandOptionsSnoc(expand: seq<ExpandEntry>, e: ExpandEntry)
    ensures ExpandOptions(expand + [e]) == ExpandOptions(expand) + [e.option]
  {
  }

  /** The partition keeps input order: the expand list holds exactly the
      related secondaries and the join list exactly the others. */
  lemma {:induction false} PartitionWithOrder(subs: seq<CombineOption>, check: Check)
    requires PartitionWith(subs, check).Success?
    ensures ExpandOptions(PartitionWith(subs, check).value.expand) == Filter(subs, RelatedBy(check))
    ensures PartitionWith(subs, check).value.joins == Filter(subs, UnrelatedBy(check))
    decreases |subs|
  {
    if |subs| > 0 {
      var init := subs[..|subs| - 1];
      var last := subs[|subs| - 1];
      assert subs == init + [last];
      PartitionWithOrder(init, check);
      var pre := PartitionWith(init, check).value;
      FilterSnoc(init, last, RelatedBy(check));
      FilterSnoc(init, last, UnrelatedBy(check));
      var related := check(last).value;
      if related.Some? {
        ExpandOptionsSnoc(pre.expand, ExpandEntry(last, related.value.name));
      }
    }
  }

  lemma PartitionOrder(m: ServiceMetadata, main: CombineOption, subs: seq<CombineOption>)
    requires PartitionOf(m, main, subs).Success?
    ensures ExpandOptions(PartitionOf(m, main, subs).value.expand) == Filter(subs, Related(m, main))
    ensures PartitionOf(m, main, subs).value.joins == Filter(subs, Unrelated(m, main))
  {
    PartitionWithOrder(subs, CheckOn(m, main));
  }

  /** Every expand entry carries the name the check found for its
      secondary; every secondary the check answers "none" for is joined. */
  lemma {:induction false} PartitionWithTags(subs: seq<CombineOption>, check: Check)
    requires PartitionWith(subs, check).Success?
    ensures forall e :: e in PartitionWith(subs, check).value.expand ==>
              check(e.option).Success? && check(e.option).value.Some? &&
              check(e.option).value.value.name == e.navigationPropName
    ensures forall o :: o in subs && check(o) == Success(None) ==> o in PartitionWith(subs, check).value.joins
    decreases |subs|
  {
    if |subs| > 0 {
      var init := subs[..|subs| - 1];
      var last := subs[|subs| - 1];
      PartitionWithTags(init, check);
      forall o | o in subs && check(o) == Success(None)
        ensures o in PartitionWith(subs, check).value.joins
      {
        if o != last {
          var k :| 0 <= k < |subs| && subs[k] == o;
          assert init[k] == o;
        }
      }
    }
  }

  /** The entry's secondary shares the main service and its tag is the name
      of the navigation property the check found. */
  predicate TaggedByCheck(m: ServiceMetadata, main: CombineOption, e: ExpandEntry) {
    e.option.model.serviceUrl == main.model.serviceUrl &&
    NavigationRelationship(m, main.entitySet, e.option.entitySet).Success? &&
    NavigationRelationship(m, main.entitySet, e.option.entitySet).value.Some? &&
    NavigationRelationship(m, main.entitySet, e.option.entitySet).value.value.name == e.navigationPropName
  }

  /** Every expand entry is a secondary of the main service tagged with the
      navigation property its check found; every secondary of another
      service is joined. */
  lemma PartitionTags(m: ServiceMetadata, main: CombineOption, subs: seq<CombineOption>)
    requires PartitionOf(m, main, subs).Success?
    ensures forall e :: e in PartitionOf(m, main, subs).value.expand ==> TaggedByCheck(m, main, e)
    ensures forall o :: o in subs && OtherService(main)(o) ==> o in PartitionOf(m, main, subs).value.joins
  {
    var check := CheckOn(m, main);
    PartitionWithTags(subs, check);
    forall e | e in PartitionOf(m, main, subs).value.expand
      ensures TaggedByCheck(m, main, e)
    {
      assert check(e.option) == ForeignKeyCheck(m, main, e.option);
    }
    forall o | o in subs && OtherService(main)(o)
      ensures o in PartitionOf(m, main, subs).value.joins
    {
      assert check(o) == Success(None);
    }
  }

  /** The `$expand` parameter: the tagged names joined with commas. */
  function NavNames(expand: seq<ExpandEntry>): (names: seq<string>)
    ensures |names| == |expand|
    ensures forall i :: 0 <= i < |expand| ==> names[i] == expand[i].navigationPropName
  {
    seq(|expand|, i requires 0 <= i < |expand| => expand[i].navigationPropName)
  }

  function ExpandQuery(p: Partition): string {
    Join(NavNames(p.expand), ",")
  }

  /** The `$expand` string lists the tagged names in partition order: it
      reads back to them when no name contains a comma. */
  lemma ExpandQueryLists(p: Partition)
    requires |p.expand| > 0
    requires forall e :: e in p.expand ==> ',' !in e.navigationPropName
    ensures Split(ExpandQuery(p), ',') == NavNames(p.expand)
  {
    var names := NavNames(p.expand);
    assert forall i :: 0 <= i < |names| ==> ',' !in names[i] by {
      forall i | 0 <= i < |names|
        ensures ',' !in names[i]
      {
        assert p.expand[i] in p.expand;
      }
    }
    SplitJoin(names, ',');
  }

  // ---------------------------------------------------------------------
  // HyperView.controller.js: `loadCombinedDataV2`
  // ---------------------------------------------------------------------

  /** A forced-join condition as the loop records it. */
  datatype JoinCondition = JoinCondition(mainEntitySet: string, joinEntitySet: string,
                                         mainJoinProperty: Option<string>, joinJoinProperty: Option<string>)

  /** A request the loop issues: a read of the main set with `$expand`, or a
      forced join, which is called with the main option first and the
      condition second. */
  datatype Request = ExpandRead(entitySet: string, expand: string) | ForcedJoin(main: CombineOption, condition: JoinCondition)

  function ConditionFor(main: CombineOption, o: CombineOption): JoinCondition {
    JoinCondition(main.entitySet, o.entitySet, main.joinProperty, o.joinProperty)
  }

  /** The expand list after the loop has seen `subs`: the unawaited check is
      a promise, always truthy, so every secondary of the main service is
      added by entity-set name. */
  function ExpandNames(main: CombineOption, subs: seq<CombineOption>): seq<string>
    decreases |subs|
  {
    if |subs| == 0 then []
    else
      var last := subs[|subs| - 1];
      ExpandNames(main, subs[..|subs| - 1]) + (if SameService(main)(last) then [last.entitySet] else [])
  }

  /** The join conditions after the loop has seen `subs`. */
  function JoinConditions(main: CombineOption, subs: seq<CombineOption>): seq<JoinCondition>
    decreases |subs|
  {
    if |subs| == 0 then []
    else
      var last := subs[|subs| - 1];
      JoinConditions(main, subs[..|subs| - 1]) + (if SameService(main)(last) then [] else [ConditionFor(main, last)])
  }

  function ForcedJoins(main: CombineOption, conditions: seq<JoinCondition>): (rs: seq<Request>)
    ensures |rs| == |conditions|
    ensures forall i :: 0 <= i < |conditions| ==> rs[i] == ForcedJoin(main, conditions[i])
  {
    seq(|conditions|, i requires 0 <= i < |conditions| => ForcedJoin(main, conditions[i]))
  }

  /** What one pass of the loop issues at its end: the expand read when the
      expand list is non-empty, then a forced join per condition so far. */
  function StepRequests(main: CombineOption, expand: seq<string>, conditions: seq<JoinCondition>): seq<Request> {
    (if |expand| > 0 then [ExpandRead(main.entitySet, Join(expand, ","))] else []) + ForcedJoins(main, conditions)
  }

  /** Every request the loop issues over `subs`, in order. */
  function RequestsOf(main: CombineOption, subs: seq<CombineOption>): seq<Request>
    decreases |subs|
  {
    if |subs| == 0 then []
    else RequestsOf(main, subs[..|subs| - 1]) + StepRequests(main, ExpandNames(main, subs), JoinConditions(main, subs))
  }

  /** One more secondary seen: the lists and the requests grow by what
      one pass adds. */
  lemma V2Step(main: CombineOption, subs: seq<CombineOption>, n: nat)
    requires 0 < n <= |subs|
    ensures ExpandNames(main, subs[..n]) ==
              ExpandNames(main, subs[..n - 1]) + (if SameService(main)(subs[n - 1]) then [subs[n - 1].entitySet] else [])
    ensures JoinConditions(main, subs[..n]) ==
              JoinConditions(main, subs[..n - 1]) + (if SameService(main)(subs[n - 1]) then [] else [ConditionFor(main, subs[n - 1])])
    ensures RequestsOf(main, subs[..n]) ==
              RequestsOf(main, subs[..n - 1]) +
              StepRequests(main, ExpandNames(main, subs[..n]), JoinConditions(main, subs[..n]))
  {
    assert subs[..n][..n - 1] == subs[..n - 1];
  }

  /** The `for (const condition of aJoinConditions)` pass: one forced join
      per condition, in order. */
  method IssueForcedJoins(requests: seq<Request>, main: CombineOption, conditions: seq<JoinCondition>)
    returns (out: seq<Request>)
    ensures out == requests + ForcedJoins(main, conditions)
  {
    out := requests;
    for k := 0 to |conditions|
      invariant out == requests + ForcedJoins(main, conditions[..k])
    {
      assert ForcedJoins(main, conditions[..k + 1]) == ForcedJoins(main, conditions[..k]) + [ForcedJoin(main, conditions[k])];
      out := out + [ForcedJoin(main, conditions[k])];
    }
    assert conditions[..|conditions|] == conditions;
  }

  /** The end of one pass: the expand read when the list is non-empty,
      then the forced joins. */
  method IssueStep(requests: seq<Request>, main: CombineOption, expand: seq<string>, conditions: seq<JoinCondition>)
    returns (out: seq<Request>)
    ensures out == requests + StepRequests(main, expand, conditions)
  {
    var expandRead: seq<Request> := [];
    if |expand| > 0 {
      expandRead := [ExpandRead(main.entitySet, Join(expand, ","))];
    }
    out := IssueForcedJoins(requests + expandRead, main, conditions);
    assert expandRead + ForcedJoins(main, conditions) == StepRequests(main, expand, conditions);
  }

  /** `loadCombinedDataV2(...options)`: with no option nothing happens;
      otherwise option 0 is the main one and the loop runs over the rest. */
  method LoadCombinedDataV2(options: seq<CombineOption>)
    returns (expand: seq<string>, conditions: seq<JoinCondition>, requests: seq<Request>)
    ensures |options| == 0 ==> expand == [] && conditions == [] && requests == []
    ensures |options| > 0 ==>
              expand == ExpandNames(options[0], options[1..]) &&
              conditions == JoinConditions(options[0], options[1..]) &&
              requests == RequestsOf(options[0], options[1..])
  {
    expand, conditions, requests := [], [], [];
    if |options| == 0 {
      return;
    }
    var main := options[0];
    var subs := options[1..];
    for i := 1 to |options|
      invariant expand == ExpandNames(main, subs[..i - 1])
      invariant conditions == JoinConditions(main, subs[..i - 1])
      invariant requests == RequestsOf(main, subs[..i - 1])
    {
      var current := options[i];
      assert subs[i - 1] == current;
      V2Step(main, subs, i);
      assert SameService(main)(current) <==> current.model.serviceUrl == main.model.serviceUrl;
      if current.model.serviceUrl == main.model.serviceUrl {
        expand := expand + [current.entitySet];
      } else {
        conditions := conditions + [ConditionFor(main, current)];
      }
      requests := IssueStep(requests, main, expand, conditions);
    }
    assert subs[..|options| - 1] == subs;
  }

  function EntitySets(os: seq<CombineOption>): (names: seq<string>)
    ensures |names| == |os|
    ensures forall i :: 0 <= i < |os| ==> names[i] == os[i].entitySet
  {
    seq(|os|, i requires 0 <= i < |os| => os[i].entitySet)
  }

  function ConditionsFor(main: CombineOption, os: seq<CombineOption>): (cs: seq<JoinCondition>)
    ensures |cs| == |os|
    ensures forall i :: 0 <= i < |os| ==> cs[i] == ConditionFor(main, os[i])
  {
    seq(|os|, i requires 0 <= i < |os| => ConditionFor(main, os[i]))
  }

  lemma EntitySetsSnoc(os: seq<CombineOption>, o: CombineOption)
    ensures EntitySets(os + [o]) == EntitySets(os) + [o.entitySet]
  {
  }

  lemma ConditionsForSnoc(main: CombineOption, os: seq<CombineOption>, o: CombineOption)
    ensures ConditionsFor(main, os + [o]) == ConditionsFor(main, os) + [ConditionFor(main, o)]
  {
  }

  /** Every same-service secondary lands in the expand list, by entity-set
      name and in input order. */
  lemma {:induction false} ExpandNamesSpec(main: CombineOption, subs: seq<CombineOption>)
    ensures ExpandNames(main, subs) == EntitySets(Filter(subs, SameService(main)))
    decreases |subs|
  {
    if |subs| > 0 {
      var init := subs[..|subs| - 1];
      var last := subs[|subs| - 1];
      assert subs == init + [last];
      ExpandNamesSpec(main, init);
      FilterSnoc(init, last, SameService(main));
      if SameService(main)(last) {
        EntitySetsSnoc(Filter(init, SameService(main)), last);
      }
    }
  }

  /** Every other secondary becomes a join condition carrying both set
      names and both join properties, in input order. */
  lemma {:induction false} JoinConditionsSpec(main: CombineOption, subs: seq<CombineOption>)
    ensures JoinConditions(main, subs) == ConditionsFor(main, Filter(subs, OtherService(main)))
    decreases |subs|
  {
    if |subs| > 0 {
      var init := subs[..|subs| - 1];
      var last := subs[|subs| - 1];
      assert subs == init + [last];
      JoinConditionsSpec(main, init);
      FilterSnoc(init, last, OtherService(main));
      if OtherService(main)(last) {
        ConditionsForSnoc(main, Filter(init, OtherService(main)), last);
      }
    }
  }

  /** The requests are issued inside the loop: with a same-service secondary
      `A` followed by a secondary `B` of another service, the expand read is
      sent twice and B's forced join once. */
  lemma RequestsRepeat(main: CombineOption, a: CombineOption, b: CombineOption)
    requires SameService(main)(a) && OtherService(main)(b)
    ensures RequestsOf(main, [a, b]) ==
            [ExpandRead(main.entitySet, a.entitySet), ExpandRead(main.entitySet, a.entitySet),
             ForcedJoin(main, ConditionFor(main, b))]
  {
    var read := ExpandRead(main.entitySet, a.entitySet);
    assert [a, b][..1] == [a];
    assert [a][..0] == [];
    assert ExpandNames(main, [a]) == [a.entitySet];
    assert ExpandNames(main, [a, b]) == [a.entitySet];
    assert JoinConditions(main, [a]) == [];
    assert JoinConditions(main, [a, b]) == [ConditionFor(main, b)];
    assert Join([a.entitySet], ",") == a.entitySet;
    assert StepRequests(main, [a.entitySet], []) == [read];
    assert StepRequests(main, [a.entitySet], [ConditionFor(main, b)]) == [read, ForcedJoin(main, ConditionFor(main, b))];
    assert RequestsOf(main, [a]) == [read];
  }

  /** With every secondary on another service nothing is expanded and
      every secondary has its join condition. */
  lemma {:induction false} OtherServicesOnly(main: CombineOption, subs: seq<CombineOption>)
    requires forall o :: o in subs ==> OtherService(main)(o)
    ensures ExpandNames(main, subs) == []
    ensures |JoinConditions(main, subs)| == |subs|
    decreases |subs|
  {
    if |subs| > 0 {
      var init := subs[..|subs| - 1];
      assert forall o :: o in init ==> o in subs;
      assert subs[|subs| - 1] in subs;
      OtherServicesOnly(main, init);
    }
  }

  /** With every secondary on another service, pass `n` re-issues the forced
      joins of all `n` conditions recorded so far, so the loop sends
      1 + 2 + ... + |subs| forced joins, twice which is |subs| * (|subs| + 1),
      and no expand read. */
  lemma {:induction false} ForcedJoinsRepeat(main: CombineOption, subs: seq<CombineOption>)
    requires forall o :: o in subs ==> OtherService(main)(o)
    ensures forall r :: r in RequestsOf(main, subs) ==> r.ForcedJoin?
    ensures 2 * |RequestsOf(main, subs)| == |subs| * (|subs| + 1)
    decreases |subs|
  {
    if |subs| > 0 {
      var n := |subs|;
      var init := subs[..n - 1];
      assert forall o :: o in init ==> o in subs;
      ForcedJoinsRepeat(main, init);
      OtherServicesPass(main, subs);
      var before, step := RequestsOf(main, init), ForcedJoins(main, JoinConditions(main, subs));
      assert forall r :: r in step ==> r.ForcedJoin?;
      TriangleStep(n, |before|);
    }
  }

  lemma TriangleStep(n: int, before: int)
    requires 2 * before == (n - 1) * n
    ensures 2 * (before + n) == n * (n + 1)
  {
  }

  /** A pass over a secondary of another service re-issues one forced join
      per condition recorded so far, and nothing else. */
  lemma OtherServicesPass(main: CombineOption, subs: seq<CombineOption>)
    requires |subs| > 0
    requires forall o :: o in subs ==> OtherService(main)(o)
    ensures RequestsOf(main, subs) == RequestsOf(main, subs[..|subs| - 1]) + ForcedJoins(main, JoinConditions(main, subs))
    ensures |ForcedJoins(main, JoinConditions(main, subs))| == |subs|
  {
    OtherServicesOnly(main, subs);
    assert StepRequests(main, [], JoinConditions(main, subs)) == ForcedJoins(main, JoinConditions(main, subs));
  }
}
