/**
 * Group derivation in the AWS Config inventory plugin
 * (GD/custom/plugins/inventory/aws_config.py): a list seeded with "linux"
 * that grows, instance by instance, with every account id, platform, state
 * name and normalised region not already in it.
 */
module AwsGroups {
  import opened AwsRecords

  /** The names in a list, as a set. */
  function Elements(gs: seq<string>): set<string>
  {
    set g | g in gs
  }

  /** No name occurs twice. */
  predicate NoDuplicates(s: seq<string>)
  {
    forall i, j :: 0 <= i < j < |s| ==> s[i] != s[j]
  }

  /** The position of the first occurrence of `x` in `s`. */
  function FirstIndex(s: seq<string>, x: string): (k: nat)
    requires x in s
    ensures k < |s| && s[k] == x && x !in s[..k]
  {
    if s[0] == x then 0
    else
      var k := 1 + FirstIndex(s[1..], x);
      assert s[1..][..k - 1] == s[1..k];
      k
  }

  /** One guarded append: `if not g in groups: groups.append(g)`. */
  function AddNew(groups: seq<string>, g: string): seq<string>
  {
    if g in groups then groups else groups + [g]
  }

  /** Guarded appends of every candidate, in order. */
  function AddAllNew(groups: seq<string>, candidates: seq<string>): seq<string>
    decreases |candidates|
  {
    if candidates == [] then groups
    else AddNew(AddAllNew(groups, candidates[..|candidates| - 1]), candidates[|candidates| - 1])
  }

  /** The candidates one instance offers, in the order the loop tests them. */
  function InstanceCandidates(inst: Instance): (c: seq<string>)
    ensures |c| == if inst.platform.Some? then 4 else 3
  {
    [inst.accountId] + (if inst.platform.Some? then [inst.platform.value] else []) +
    [inst.stateName, RegionGroup(inst)]
  }

  /** The candidates of all instances, instance by instance. */
  function Candidates(insts: seq<Instance>): seq<string>
  {
    if insts == [] then []
    else Candidates(insts[..|insts| - 1]) + InstanceCandidates(insts[|insts| - 1])
  }

  /** The group list the plugin builds. */
  function GroupNames(insts: seq<Instance>): seq<string>
  {
    AddAllNew(["linux"], Candidates(insts))
  }

  /**
   * Appending only what is missing keeps the existing list as a prefix, adds
   * exactly the candidates, keeps the list duplicate-free, and orders the
   * new names by where they first occur among the candidates.
   */
  lemma {:induction false} AddAllNewProperties(groups: seq<string>, candidates: seq<string>)
    ensures var r := AddAllNew(groups, candidates);
      && |r| >= |groups| && r[..|groups|] == groups
      && (forall x :: x in r <==> x in groups || x in candidates)
      && (NoDuplicates(groups) ==> NoDuplicates(r))
      && (forall i :: |groups| <= i < |r| ==> r[i] in candidates && r[i] !in groups)
      && (forall i, j :: |groups| <= i < j < |r| ==>
            r[i] in candidates && r[j] in candidates &&
            FirstIndex(candidates, r[i]) < FirstIndex(candidates, r[j]))
    decreases |candidates|
  {
    if candidates != [] {
      var n := |candidates|;
      var init, x := candidates[..n - 1], candidates[n - 1];
      assert candidates == init + [x];
      AddAllNewProperties(groups, init);
      var before := AddAllNew(groups, init);
      var r := AddAllNew(groups, candidates);
      assert r == AddNew(before, x);
      assert forall y :: y in init ==> y in candidates;
      forall y | y in init
        ensures FirstIndex(candidates, y) == FirstIndex(init, y)
      {
        var k' := FirstIndex(init, y);
        assert candidates[k'] == y && candidates[..k'] == init[..k'];
      }
      if x !in before {
        assert x !in init;
        assert candidates[..n - 1] == init;
        assert FirstIndex(candidates, x) == n - 1;
        forall i, j | |groups| <= i < j < |r|
          ensures r[i] in candidates && r[j] in candidates &&
                  FirstIndex(candidates, r[i]) < FirstIndex(candidates, r[j])
        {
          if j == |r| - 1 {
            assert r[i] == before[i] && before[i] in init;
          } else {
            assert r[i] == before[i] && r[j] == before[j];
          }
        }
      }
    }
  }

  /** Adding the candidates of two lists one after the other is adding those of their concatenation. */
  lemma {:induction false} AddAllNewAppend(groups: seq<string>, xs: seq<string>, ys: seq<string>)
    ensures AddAllNew(groups, xs + ys) == AddAllNew(AddAllNew(groups, xs), ys)
    decreases |ys|
  {
    if ys == [] {
      assert xs + ys == xs;
    } else {
      var n := |ys|;
      assert (xs + ys)[..|xs + ys| - 1] == xs + ys[..n - 1];
      AddAllNewAppend(groups, xs, ys[..n - 1]);
    }
  }

  lemma AddAllNewSnoc(groups: seq<string>, seen: seq<string>, x: string)
    ensures AddAllNew(groups, seen + [x]) == AddNew(AddAllNew(groups, seen), x)
  {
    assert (seen + [x])[..|seen|] == seen;
  }

  /** The guarded appends for one instance, spelled out. */
  lemma AddInstanceCandidates(groups: seq<string>, inst: Instance)
    ensures AddAllNew(groups, InstanceCandidates(inst)) ==
      var g1 := AddNew(groups, inst.accountId);
      var g2 := if inst.platform.Some? then AddNew(g1, inst.platform.value) else g1;
      AddNew(AddNew(g2, inst.stateName), RegionGroup(inst))
  {
    var seen := [inst.accountId];
    AddAllNewSnoc(groups, [], inst.accountId);
    assert [] + [inst.accountId] == seen;
    if inst.platform.Some? {
      AddAllNewSnoc(groups, seen, inst.platform.value);
      seen := seen + [inst.platform.value];
    }
    AddAllNewSnoc(groups, seen, inst.stateName);
    seen := seen + [inst.stateName];
    AddAllNewSnoc(groups, seen, RegionGroup(inst));
    seen := seen + [RegionGroup(inst)];
    assert seen == InstanceCandidates(inst);
  }

  lemma CandidatesStep(insts: seq<Instance>, i: nat)
    requires i < |insts|
    ensures Candidates(insts[..i + 1]) == Candidates(insts[..i]) + InstanceCandidates(insts[i])
  {
    assert insts[..i + 1][..i] == insts[..i];
  }

  /** Every instance's own candidates are among all candidates. */
  lemma {:induction false} CandidatesCover(insts: seq<Instance>, k: nat)
    requires k < |insts|
    ensures forall c :: c in InstanceCandidates(insts[k]) ==> c in Candidates(insts)
    decreases |insts|
  {
    var n := |insts|;
    if k < n - 1 {
      CandidatesCover(insts[..n - 1], k);
      assert insts[..n - 1][k] == insts[k];
    }
  }

  /** Every candidate comes from some instance. */
  lemma {:induction false} CandidatesFromInstances(insts: seq<Instance>, c: string)
    requires c in Candidates(insts)
    ensures exists k :: 0 <= k < |insts| && c in InstanceCandidates(insts[k])
    decreases |insts|
  {
    var n := |insts|;
    if c !in InstanceCandidates(insts[n - 1]) {
      CandidatesFromInstances(insts[..n - 1], c);
      var k :| 0 <= k < n - 1 && c in InstanceCandidates(insts[..n - 1][k]);
      assert insts[..n - 1][k] == insts[k];
    }
  }

  /** The derived group list starts with "linux" and has no duplicates. */
  lemma GroupNamesSeeded(insts: seq<Instance>)
    ensures |GroupNames(insts)| >= 1 && GroupNames(insts)[0] == "linux"
    ensures NoDuplicates(GroupNames(insts))
  {
    AddAllNewProperties(["linux"], Candidates(insts));
    assert GroupNames(insts)[..1] == ["linux"];
  }

  /** The derived group list holds every group any host will join. */
  lemma GroupNamesCover(insts: seq<Instance>)
    ensures forall inst :: inst in insts ==> HostGroups(inst) <= Elements(GroupNames(insts))
  {
    var gs := GroupNames(insts);
    AddAllNewProperties(["linux"], Candidates(insts));
    forall inst | inst in insts
      ensures HostGroups(inst) <= Elements(gs)
    {
      var k :| 0 <= k < |insts| && insts[k] == inst;
      CandidatesCover(insts, k);
      assert inst.accountId in InstanceCandidates(inst);
      assert inst.stateName in InstanceCandidates(inst);
      assert RegionGroup(inst) in InstanceCandidates(inst);
      if inst.platform.Some? {
        assert inst.platform.value in InstanceCandidates(inst);
      }
    }
  }

  /** The derived group list holds "linux" and the instances' candidates, and nothing else. */
  lemma GroupNamesOnlyCandidates(insts: seq<Instance>)
    ensures forall g :: g in GroupNames(insts) ==>
      g == "linux" || exists inst :: inst in insts && g in InstanceCandidates(inst)
  {
    var gs := GroupNames(insts);
    AddAllNewProperties(["linux"], Candidates(insts));
    forall g | g in gs && g != "linux"
      ensures exists inst :: inst in insts && g in InstanceCandidates(inst)
    {
      CandidatesFromInstances(insts, g);
    }
  }

  /**
   * New names appear in the order they are first seen, instance by instance
   * and, within an instance, account, platform, state, region.
   */
  lemma GroupNamesFirstSeen(insts: seq<Instance>)
    ensures var gs, cs := GroupNames(insts), Candidates(insts);
      forall i, j :: 1 <= i < j < |gs| ==>
        gs[i] in cs && gs[j] in cs && FirstIndex(cs, gs[i]) < FirstIndex(cs, gs[j])
  {
    AddAllNewProperties(["linux"], Candidates(insts));
  }

  /**
   * The derivation loop: for every instance, append its account id, its
   * platform when present, its state name and its normalised region, each
   * only when not already in the list.
   */
  method DeriveGroups(instances: seq<Instance>) returns (groups: seq<string>)
    ensures groups == GroupNames(instances)
    ensures |groups| >= 1 && groups[0] == "linux" && NoDuplicates(groups)
    ensures forall inst :: inst in instances ==> HostGroups(inst) <= Elements(groups)
  {
    groups := ["linux"];
    var i := 0;
    while i < |instances|
      invariant 0 <= i <= |instances|
      invariant groups == AddAllNew(["linux"], Candidates(instances[..i]))
    {
      var inst := instances[i];
      ghost var before := groups;
      if inst.accountId !in groups {
        groups := groups + [inst.accountId];
      }
      assert groups == AddNew(before, inst.accountId);
      ghost var afterAccount := groups;
      if inst.platform.Some? && inst.platform.value !in groups {
        groups := groups + [inst.platform.value];
      }
      assert groups == if inst.platform.Some? then AddNew(afterAccount, inst.platform.value) else afterAccount;
      ghost var afterPlatform := groups;
      if inst.stateName !in groups {
        groups := groups + [inst.stateName];
      }
      assert groups == AddNew(afterPlatform, inst.stateName);
      ghost var afterState := groups;
      var region := Underscored(inst.awsRegion);
      if region !in groups {
        groups := groups + [region];
      }
      assert groups == AddNew(afterState, RegionGroup(inst));
      AddInstanceCandidates(before, inst);
      assert groups == AddAllNew(before, InstanceCandidates(inst));
      CandidatesStep(instances, i);
      AddAllNewAppend(["linux"], Candidates(instances[..i]), InstanceCandidates(inst));
      assert groups == AddAllNew(["linux"], Candidates(instances[..i + 1]));
      i := i + 1;
    }
    assert instances[..i] == instances;
    GroupNamesSeeded(instances);
    GroupNamesCover(instances);
  }
}
