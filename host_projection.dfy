/**
 * Host projection in the AWS Config inventory plugin
 * (GD/custom/plugins/inventory/aws_config.py): register every derived group,
 * then, per instance, add its host, set `ansible_host` to its resource id and
 * put it in its account, region, state and platform-or-"linux" groups.
 */
module HostProjection {
  import opened Wrappers
  import opened AwsRecords
  import opened InventorySink
  import opened AwsGroups

  /** The resource ids of the instances. */
  function ResourceIds(insts: seq<Instance>): set<string>
  {
    if insts == [] then {}
    else ResourceIds(insts[..|insts| - 1]) + {insts[|insts| - 1].resourceId}
  }

  lemma {:induction false} ResourceIdsMembership(insts: seq<Instance>, h: string)
    ensures h in ResourceIds(insts) <==> exists k :: 0 <= k < |insts| && insts[k].resourceId == h
    decreases |insts|
  {
    if insts != [] {
      var n := |insts|;
      ResourceIdsMembership(insts[..n - 1], h);
      if h in ResourceIds(insts[..n - 1]) {
        var k :| 0 <= k < n - 1 && insts[..n - 1][k].resourceId == h;
        assert insts[k] == insts[..n - 1][k];
      }
      if exists k :: 0 <= k < n - 1 && insts[k].resourceId == h {
        var k :| 0 <= k < n - 1 && insts[k].resourceId == h;
        assert insts[..n - 1][k] == insts[k];
      }
    }
  }

  /** The union of the groups of every instance whose resource id is `h`. */
  function GroupsFor(insts: seq<Instance>, h: string): set<string>
  {
    if insts == [] then {}
    else
      var last := insts[|insts| - 1];
      GroupsFor(insts[..|insts| - 1], h) + (if last.resourceId == h then HostGroups(last) else {})
  }

  /** `for group in groups: add_group(group)`. */
  function RegisterGroups(s: SinkState, gs: seq<string>): (r: SinkState)
    ensures r.groups == s.groups + Elements(gs)
    ensures r.hosts == s.hosts && r.memberships == s.memberships && r.vars == s.vars
  {
    if gs == [] then s
    else
      var n := |gs|;
      var r := WithGroup(RegisterGroups(s, gs[..n - 1]), gs[n - 1]);
      assert gs == gs[..n - 1] + [gs[n - 1]];
      assert Elements(gs) == Elements(gs[..n - 1]) + {gs[n - 1]};
      r
  }

  /** The six inventory calls made for one instance, in source order. */
  function ProjectInstance(s: SinkState, inst: Instance): (r: SinkState)
    ensures r.groups == s.groups && r.hosts == s.hosts + {inst.resourceId}
    ensures MembersOf(r, inst.resourceId) == MembersOf(s, inst.resourceId) + HostGroups(inst)
    ensures VarsOf(r, inst.resourceId) == VarsOf(s, inst.resourceId)["ansible_host" := inst.resourceId]
    ensures forall h :: h != inst.resourceId ==> MembersOf(r, h) == MembersOf(s, h) && VarsOf(r, h) == VarsOf(s, h)
  {
    var id := inst.resourceId;
    var s1 := WithHost(s, id, None);
    var s2 := WithVariable(s1, id, "ansible_host", id);
    var s3 := WithHost(s2, id, Some(inst.accountId));
    var s4 := WithHost(s3, id, Some(RegionGroup(inst)));
    var s5 := WithHost(s4, id, Some(inst.stateName));
    WithHost(s5, id, Some(PlatformGroup(inst)))
  }

  /** The projection loop over all instances. */
  function ProjectAll(s: SinkState, insts: seq<Instance>): SinkState
  {
    if insts == [] then s
    else ProjectInstance(ProjectAll(s, insts[..|insts| - 1]), insts[|insts| - 1])
  }

  lemma ProjectAllStep(s: SinkState, insts: seq<Instance>, i: nat)
    requires i < |insts|
    ensures ProjectAll(s, insts[..i + 1]) == ProjectInstance(ProjectAll(s, insts[..i]), insts[i])
  {
    assert insts[..i + 1][..i] == insts[..i];
  }

  /** Projecting the same record twice is projecting it once. */
  lemma ProjectInstanceIdempotent(s: SinkState, inst: Instance)
    ensures ProjectInstance(ProjectInstance(s, inst), inst) == ProjectInstance(s, inst)
  {
    ProjectInstanceSameMemberships(s, inst);
    ProjectInstanceSameVars(s, inst);
  }

  lemma ProjectInstanceSameMemberships(s: SinkState, inst: Instance)
    ensures ProjectInstance(ProjectInstance(s, inst), inst).memberships == ProjectInstance(s, inst).memberships
  {
  }

  lemma ProjectInstanceSameVars(s: SinkState, inst: Instance)
    ensures ProjectInstance(ProjectInstance(s, inst), inst).vars == ProjectInstance(s, inst).vars
  {
    var once, id := ProjectInstance(s, inst), inst.resourceId;
    assert VarsOf(once, id)["ansible_host" := id] == VarsOf(once, id);
  }

  /** A record met again right after itself leaves the inventory as one meeting does. */
  lemma ProjectAllRepeated(s: SinkState, inst: Instance)
    ensures ProjectAll(s, [inst, inst]) == ProjectAll(s, [inst])
  {
    assert [inst, inst][..1] == [inst];
    assert [inst][..0] == [];
    ProjectInstanceIdempotent(s, inst);
  }

  /** Projecting a concatenation is projecting its parts one after the other. */
  lemma {:induction false} ProjectAllAppend(s: SinkState, xs: seq<Instance>, ys: seq<Instance>)
    ensures ProjectAll(s, xs + ys) == ProjectAll(ProjectAll(s, xs), ys)
    decreases |ys|
  {
    if ys == [] {
      assert xs + ys == xs;
    } else {
      var n := |ys|;
      assert (xs + ys)[..|xs + ys| - 1] == xs + ys[..n - 1];
      assert (xs + ys)[|xs + ys| - 1] == ys[n - 1];
      ProjectAllAppend(s, xs, ys[..n - 1]);
    }
  }

  /** Anywhere in the list, a record repeated right after itself changes nothing. */
  lemma RepeatedRecordHarmless(s: SinkState, xs: seq<Instance>, inst: Instance, ys: seq<Instance>)
    ensures ProjectAll(s, xs + [inst, inst] + ys) == ProjectAll(s, xs + [inst] + ys)
  {
    var before := ProjectAll(s, xs);
    ProjectAllAppend(s, xs + [inst, inst], ys);
    ProjectAllAppend(s, xs, [inst, inst]);
    ProjectAllAppend(s, xs + [inst], ys);
    ProjectAllAppend(s, xs, [inst]);
    ProjectAllRepeated(before, inst);
  }

  /** Two records sharing a resource id put that host in the groups of both. */
  lemma SharedIdMergesGroups(s: SinkState, a: Instance, b: Instance)
    requires a.resourceId == b.resourceId
    ensures MembersOf(ProjectAll(s, [a, b]), a.resourceId) == MembersOf(s, a.resourceId) + HostGroups(a) + HostGroups(b)
  {
    var h := a.resourceId;
    ProjectAllMembers(s, [a, b], h);
    GroupsForSnoc([a], b, h);
    GroupsForSnoc([], a, h);
    assert [a] + [b] == [a, b] && [] + [a] == [a];
    assert GroupsFor([], h) == {};
    assert GroupsFor([a, b], h) == HostGroups(a) + HostGroups(b);
  }

  lemma GroupsForSnoc(insts: seq<Instance>, x: Instance, h: string)
    ensures GroupsFor(insts + [x], h) == GroupsFor(insts, h) + (if x.resourceId == h then HostGroups(x) else {})
  {
    assert (insts + [x])[..|insts|] == insts;
  }

  /** Projection adds no group and adds exactly the instances' resource ids as hosts. */
  lemma {:induction false} ProjectAllHosts(s: SinkState, insts: seq<Instance>)
    ensures ProjectAll(s, insts).groups == s.groups
    ensures ProjectAll(s, insts).hosts == s.hosts + ResourceIds(insts)
    decreases |insts|
  {
    if insts != [] {
      ProjectAllHosts(s, insts[..|insts| - 1]);
    }
  }

  /** A host's groups after projection: its groups before, plus those of every instance carrying its id. */
  lemma {:induction false} ProjectAllMembers(s: SinkState, insts: seq<Instance>, h: string)
    ensures MembersOf(ProjectAll(s, insts), h) == MembersOf(s, h) + GroupsFor(insts, h)
    decreases |insts|
  {
    if insts != [] {
      ProjectAllMembers(s, insts[..|insts| - 1], h);
    }
  }

  /** A host's variables after projection: `ansible_host` set to its own id when some instance carries it, untouched otherwise. */
  lemma {:induction false} ProjectAllVars(s: SinkState, insts: seq<Instance>, h: string)
    ensures h in ResourceIds(insts) ==> VarsOf(ProjectAll(s, insts), h) == VarsOf(s, h)["ansible_host" := h]
    ensures h !in ResourceIds(insts) ==> VarsOf(ProjectAll(s, insts), h) == VarsOf(s, h)
    decreases |insts|
  {
    if insts != [] {
      var n := |insts|;
      var init, last := insts[..n - 1], insts[n - 1];
      ProjectAllVars(s, init, h);
      if h == last.resourceId && h in ResourceIds(init) {
        assert VarsOf(s, h)["ansible_host" := h]["ansible_host" := h] == VarsOf(s, h)["ansible_host" := h];
      }
    }
  }

  /** Every instance contributes its groups to its own resource id. */
  lemma {:induction false} GroupsForCover(insts: seq<Instance>, k: nat)
    requires k < |insts|
    ensures HostGroups(insts[k]) <= GroupsFor(insts, insts[k].resourceId)
    decreases |insts|
  {
    var n := |insts|;
    if k < n - 1 {
      GroupsForCover(insts[..n - 1], k);
      assert insts[..n - 1][k] == insts[k];
    }
  }

  /** With only one instance carrying resource id `insts[k].resourceId`, that id collects exactly that instance's groups. */
  lemma {:induction false} GroupsForUnique(insts: seq<Instance>, k: nat)
    requires k < |insts|
    requires forall j :: 0 <= j < |insts| && insts[j].resourceId == insts[k].resourceId ==> j == k
    ensures GroupsFor(insts, insts[k].resourceId) == HostGroups(insts[k])
    decreases |insts|
  {
    var n := |insts|;
    var init, id := insts[..n - 1], insts[k].resourceId;
    if k < n - 1 {
      assert init[k] == insts[k];
      forall j | 0 <= j < |init| && init[j].resourceId == id ensures j == k {
        assert init[j] == insts[j];
      }
      GroupsForUnique(init, k);
      assert insts[n - 1].resourceId != id;
    } else {
      forall j | 0 <= j < |init| ensures init[j].resourceId != id {
        assert init[j] == insts[j];
      }
      GroupsForAbsent(init, id);
    }
  }

  /** An id no instance carries collects no groups. */
  lemma {:induction false} GroupsForAbsent(insts: seq<Instance>, h: string)
    requires forall j :: 0 <= j < |insts| ==> insts[j].resourceId != h
    ensures GroupsFor(insts, h) == {}
    decreases |insts|
  {
    if insts != [] {
      GroupsForAbsent(insts[..|insts| - 1], h);
    }
  }

  /** Every group an instance's host joins were already registered, so membership only names known groups. */
  lemma {:induction false} GroupsForRegistered(insts: seq<Instance>, h: string, registered: set<string>)
    requires forall inst :: inst in insts ==> HostGroups(inst) <= registered
    ensures GroupsFor(insts, h) <= registered
    decreases |insts|
  {
    if insts != [] {
      GroupsForRegistered(insts[..|insts| - 1], h, registered);
      assert insts[|insts| - 1] in insts;
    }
  }

  /**
   * After projection every instance's resource id is a host whose
   * `ansible_host` is that id and which belongs to the instance's account,
   * region, state and platform-or-"linux" groups.
   */
  lemma ProjectAllPlacesHosts(s: SinkState, insts: seq<Instance>)
    ensures var r := ProjectAll(s, insts);
      forall inst :: inst in insts ==>
        && inst.resourceId in r.hosts
        && "ansible_host" in VarsOf(r, inst.resourceId)
        && VarsOf(r, inst.resourceId)["ansible_host"] == inst.resourceId
        && HostGroups(inst) <= MembersOf(r, inst.resourceId)
  {
    var r := ProjectAll(s, insts);
    ProjectAllHosts(s, insts);
    forall inst | inst in insts
      ensures && inst.resourceId in r.hosts
              && "ansible_host" in VarsOf(r, inst.resourceId)
              && VarsOf(r, inst.resourceId)["ansible_host"] == inst.resourceId
              && HostGroups(inst) <= MembersOf(r, inst.resourceId)
    {
      var k :| 0 <= k < |insts| && insts[k] == inst;
      ResourceIdsMembership(insts, inst.resourceId);
      GroupsForCover(insts, k);
      ProjectAllMembers(s, insts, inst.resourceId);
      ProjectAllVars(s, insts, inst.resourceId);
    }
  }

  /**
   * A host that was not in the inventory and whose resource id occurs once
   * belongs to exactly its account, region, state and platform-or-"linux"
   * groups, and to no other.
   */
  lemma ProjectAllExactGroups(s: SinkState, insts: seq<Instance>, k: nat)
    requires k < |insts| && insts[k].resourceId !in s.memberships
    requires forall j :: 0 <= j < |insts| && insts[j].resourceId == insts[k].resourceId ==> j == k
    ensures MembersOf(ProjectAll(s, insts), insts[k].resourceId) == HostGroups(insts[k])
  {
    GroupsForUnique(insts, k);
    ProjectAllMembers(s, insts, insts[k].resourceId);
  }

  /** Projection keeps the inventory consistent when every group a host joins was registered first. */
  lemma ProjectAllConsistent(s: SinkState, insts: seq<Instance>)
    requires Consistent(s)
    requires forall inst :: inst in insts ==> HostGroups(inst) <= s.groups
    ensures Consistent(ProjectAll(s, insts))
  {
    var r := ProjectAll(s, insts);
    ProjectAllHosts(s, insts);
    forall h | h in r.memberships
      ensures r.memberships[h] <= r.groups
    {
      GroupsForRegistered(insts, h, s.groups);
      ProjectAllMembers(s, insts, h);
    }
    forall h | h in r.vars
      ensures h in r.hosts
    {
      ProjectAllVars(s, insts, h);
    }
    forall h | h in r.hosts
      ensures h in r.memberships
    {
      if h !in s.hosts {
        ResourceIdsMembership(insts, h);
        var k :| 0 <= k < |insts| && insts[k].resourceId == h;
        GroupsForCover(insts, k);
        ProjectAllMembers(s, insts, h);
        assert insts[k].accountId in MembersOf(r, h);
      }
    }
    forall h | h in r.memberships
      ensures h in r.hosts
    {
      if h !in s.memberships {
        ProjectAllMembers(s, insts, h);
        if h !in ResourceIds(insts) {
          GroupsForAbsentIds(insts, h);
        }
      }
    }
  }

  lemma {:induction false} GroupsForAbsentIds(insts: seq<Instance>, h: string)
    requires h !in ResourceIds(insts)
    ensures GroupsFor(insts, h) == {}
  {
    ResourceIdsMembership(insts, h);
    GroupsForAbsent(insts, h);
  }

  /** `for group in groups: self.inventory.add_group(group)`. */
  method RegisterAll(inventory: Inventory, groups: seq<string>)
    modifies inventory
    ensures inventory.State() == RegisterGroups(old(inventory.State()), groups)
  {
    var i := 0;
    while i < |groups|
      invariant 0 <= i <= |groups|
      invariant inventory.State() == RegisterGroups(old(inventory.State()), groups[..i])
    {
      inventory.AddGroup(groups[i]);
      assert groups[..i + 1][..i] == groups[..i];
      i := i + 1;
    }
    assert groups[..i] == groups;
  }

  /** The host loop: add the host, set `ansible_host`, and add it to its four groups. */
  method AddHosts(inventory: Inventory, instances: seq<Instance>)
    requires forall inst :: inst in instances ==> HostGroups(inst) <= inventory.groups
    modifies inventory
    ensures inventory.State() == ProjectAll(old(inventory.State()), instances)
  {
    var i := 0;
    while i < |instances|
      invariant 0 <= i <= |instances|
      invariant inventory.State() == ProjectAll(old(inventory.State()), instances[..i])
      invariant inventory.groups == old(inventory.groups)
    {
      var inst := instances[i];
      assert inst in instances;
      ghost var before := inventory.State();
      assert HostGroups(inst) <= inventory.groups;
      var id := inst.resourceId;
      inventory.AddHost(id, None);
      ghost var s1 := inventory.State();
      inventory.SetVariable(id, "ansible_host", id);
      ghost var s2 := inventory.State();
      inventory.AddHost(id, Some(inst.accountId));
      ghost var s3 := inventory.State();
      inventory.AddHost(id, Some(Underscored(inst.awsRegion)));
      ghost var s4 := inventory.State();
      inventory.AddHost(id, Some(inst.stateName));
      ghost var s5 := inventory.State();
      if inst.platform.Some? {
        inventory.AddHost(id, Some(inst.platform.value));
      } else {
        inventory.AddHost(id, Some("linux"));
      }
      assert inventory.State() == WithHost(s5, id, Some(PlatformGroup(inst)));
      assert s5 == WithHost(WithHost(WithHost(WithVariable(WithHost(before, id, None), id, "ansible_host", id),
                                            id, Some(inst.accountId)), id, Some(RegionGroup(inst))), id, Some(inst.stateName));
      assert inventory.State() == ProjectInstance(before, inst);
      ProjectAllStep(old(inventory.State()), instances, i);
      i := i + 1;
    }
    assert instances[..i] == instances;
  }
}
