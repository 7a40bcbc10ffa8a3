/**
 * The AWS Config inventory plugin (GD/custom/plugins/inventory/aws_config.py):
 * recognising its configuration files, and `parse`, which runs the query,
 * normalisation and projection stages against the inventory it is given.
 *
 * The plugin framework's own checks and option loading, the AWS client and
 * the literal evaluator are parameters: `baseAccepts`, `options`, `select`
 * and `eval`.
 */
module AwsConfig {
  import opened Wrappers
  import opened AwsRecords
  import opened AwsQuery
  import opened AwsGroups
  import opened InventorySink
  import opened HostProjection

  /** The plugin's NAME. */
  const PluginName: string := "aws_config"

  predicate EndsWith(s: string, suffix: string)
  {
    |suffix| <= |s| && s[|s| - |suffix|..] == suffix
  }

  /** The file names the plugin claims. */
  const ConfigSuffixes: seq<string> := ["aws_config.yml", "aws_config.yaml"]

  /** `str.endswith` with a tuple of suffixes. */
  predicate EndsWithAny(s: string, suffixes: seq<string>)
  {
    |suffixes| > 0 && (EndsWith(s, suffixes[0]) || EndsWithAny(s, suffixes[1..]))
  }

  /**
   * `verify_file`: the base plugin's check must pass (`baseAccepts`) and the
   * path must end in "aws_config.yml" or "aws_config.yaml".
   */
  function VerifyFile(baseAccepts: bool, path: string): (ok: bool)
    ensures ok <==> baseAccepts && (EndsWith(path, "aws_config.yml") || EndsWith(path, "aws_config.yaml"))
  {
    var rest := ConfigSuffixes[1..];
    assert rest[0] == "aws_config.yaml" && !EndsWithAny(path, rest[1..]);
    assert EndsWithAny(path, rest) == EndsWith(path, "aws_config.yaml");
    if baseAccepts && EndsWithAny(path, ConfigSuffixes) then true else false
  }

  lemma EndsWithTail(s: string, prefix: string, tail: string)
    requires EndsWith(s, prefix + tail)
    ensures EndsWith(s, tail)
  {
    var whole := prefix + tail;
    assert s[|s| - |tail|..] == s[|s| - |whole|..][|prefix|..];
    assert whole[|prefix|..] == tail;
  }

  /** An accepted file is a YAML file, and any directory may hold one. */
  lemma {:induction false} VerifyFileYamlOnly(baseAccepts: bool, path: string, dir: string)
    ensures VerifyFile(baseAccepts, path) ==> EndsWith(path, ".yml") || EndsWith(path, ".yaml")
    ensures VerifyFile(true, dir + "aws_config.yml") && VerifyFile(true, dir + "aws_config.yaml")
    ensures !VerifyFile(false, path)
  {
    if VerifyFile(baseAccepts, path) {
      if EndsWith(path, "aws_config.yml") {
        assert "aws_config.yml" == "aws_config" + ".yml";
        EndsWithTail(path, "aws_config", ".yml");
      } else {
        assert "aws_config.yaml" == "aws_config" + ".yaml";
        EndsWithTail(path, "aws_config", ".yaml");
      }
    }
    var yml, yaml := dir + "aws_config.yml", dir + "aws_config.yaml";
    assert yml[|yml| - |"aws_config.yml"|..] == "aws_config.yml";
    assert yaml[|yaml| - |"aws_config.yaml"|..] == "aws_config.yaml";
  }

  /** The options `parse` reads through `get_option`. */
  datatype Options = Options(region: seq<string>, aggregatorName: string)

  /** Why `parse` raised. */
  datatype ParseError =
    | MissingBoto3                 // the AnsibleError raised when boto3 is not importable
    | QueryFailed(error: ApiError) // a client error from the aggregator
    | MalformedRecord(raw: string) // literal evaluation of a re-wrapped record failed

  /** What the group registration and host loops make of the decoded instances. */
  function Inventorize(s: SinkState, insts: seq<Instance>): SinkState
  {
    ProjectAll(RegisterGroups(s, GroupNames(insts)), insts)
  }

  /** The inventory after `parse`, or the error it raises first. */
  function ParseSpec(
    s: SinkState, hasBoto3: bool, options: Options,
    select: Request -> Result<Response, ApiError>, fuel: nat, eval: string -> Option<Instance>)
    : Result<SinkState, ParseError>
    requires hasBoto3 ==> Exhausts(select, options.aggregatorName, None, fuel)
  {
    if !hasBoto3 then Failure(MissingBoto3)
    else match Collect(select, options.aggregatorName, None, fuel)
      case Failure(e) => Failure(QueryFailed(e))
      case Success(raws) =>
        match DecodeAll(eval, raws)
        case Failure(raw) => Failure(MalformedRecord(raw))
        case Success(insts) => Success(Inventorize(s, insts))
  }

  /**
   * What a successful run leaves in the inventory: every derived group,
   * "linux" among them; every instance's host with `ansible_host` set to its
   * resource id and membership of its four groups; and, when the inventory
   * was consistent before, every membership names a registered group.
   */
  lemma InventorizeProperties(s: SinkState, insts: seq<Instance>)
    ensures var r := Inventorize(s, insts);
      && "linux" in r.groups
      && r.groups == s.groups + Elements(GroupNames(insts))
      && r.hosts == s.hosts + ResourceIds(insts)
      && (forall inst :: inst in insts ==>
            && inst.resourceId in r.hosts
            && "ansible_host" in VarsOf(r, inst.resourceId)
            && VarsOf(r, inst.resourceId)["ansible_host"] == inst.resourceId
            && HostGroups(inst) <= MembersOf(r, inst.resourceId)
            && HostGroups(inst) <= r.groups)
      && (Consistent(s) ==> Consistent(r))
  {
    var gs := GroupNames(insts);
    var registered := RegisterGroups(s, gs);
    GroupNamesSeeded(insts);
    GroupNamesCover(insts);
    assert gs[0] in gs;
    ProjectAllHosts(registered, insts);
    ProjectAllPlacesHosts(registered, insts);
    assert forall inst :: inst in insts ==> HostGroups(inst) <= registered.groups;
    if Consistent(s) {
      ProjectAllConsistent(registered, insts);
    }
  }

  /** Any record that does not evaluate, wherever it is in the results, makes the run fail with a malformed-record error. */
  lemma MalformedRecordFails(
    s: SinkState, options: Options,
    select: Request -> Result<Response, ApiError>, fuel: nat, eval: string -> Option<Instance>, k: nat)
    requires Exhausts(select, options.aggregatorName, None, fuel)
    requires Collect(select, options.aggregatorName, None, fuel).Success?
    requires var raws := Collect(select, options.aggregatorName, None, fuel).value;
      k < |raws| && eval(Rewrap(raws[k])).None?
    ensures ParseSpec(s, true, options, select, fuel, eval).Failure?
    ensures ParseSpec(s, true, options, select, fuel, eval).error.MalformedRecord?
  {
  }

  /**
   * The worked example, for any one instance without a platform whose
   * account, state and normalised region are distinct and not "linux"
   * (account "111", state "running", region "us-east-1"): the group list is
   * "linux", account, state, region, and the host joins exactly those four.
   */
  lemma LinuxInstanceGroups(inst: Instance)
    requires inst.platform.None?
    requires var a, st, rg := inst.accountId, inst.stateName, RegionGroup(inst);
      a != "linux" && st != "linux" && rg != "linux" && a != st && a != rg && st != rg
    ensures GroupNames([inst]) == ["linux", inst.accountId, inst.stateName, RegionGroup(inst)]
  {
    assert Candidates([inst]) == InstanceCandidates(inst) by {
      assert [inst][..0] == [];
    }
    AddInstanceCandidates(["linux"], inst);
  }

  lemma LinuxInstanceExample(inst: Instance)
    requires inst.platform.None?
    ensures var r := Inventorize(EmptySink, [inst]);
      && r.hosts == {inst.resourceId}
      && MembersOf(r, inst.resourceId) == {"linux", inst.accountId, RegionGroup(inst), inst.stateName}
      && VarsOf(r, inst.resourceId)["ansible_host"] == inst.resourceId
  {
    var registered := RegisterGroups(EmptySink, GroupNames([inst]));
    ProjectAllHosts(registered, [inst]);
    assert ResourceIds([inst]) == {inst.resourceId} by { assert [inst][..0] == []; }
    ProjectAllExactGroups(registered, [inst], 0);
    ProjectAllVars(registered, [inst], inst.resourceId);
  }

  /** The plugin object; `parse` records its options and query on it. */
  class InventoryModule {
    var region: seq<string>
    var aggregatorName: string
    var configQuery: string

    constructor ()
      ensures region == [] && aggregatorName == "" && configQuery == ""
    {
      region, aggregatorName, configQuery := [], "", "";
    }

    /**
     * `parse`: fail when boto3 is missing; read the options; collect every
     * page; evaluate every re-wrapped record; derive the group list; register
     * the groups; add the hosts. Every error the model covers is raised before
     * the inventory is touched, so in the model a run either completes or leaves
     * the inventory as it was.
     */
    method Parse(
      inventory: Inventory, hasBoto3: bool, options: Options,
      select: Request -> Result<Response, ApiError>, ghost fuel: nat, eval: string -> Option<Instance>)
      returns (outcome: Result<(), ParseError>)
      requires hasBoto3 ==> Exhausts(select, options.aggregatorName, None, fuel)
      modifies this, inventory
      ensures match ParseSpec(old(inventory.State()), hasBoto3, options, select, fuel, eval)
        case Success(after) => outcome.Success? && inventory.State() == after
        case Failure(e) => outcome == Failure(e) && inventory.State() == old(inventory.State())
      ensures hasBoto3 ==>
        region == options.region && aggregatorName == options.aggregatorName && configQuery == ConfigQuery
      ensures !hasBoto3 ==> unchanged(this)
    {
      if !hasBoto3 {
        return Failure(MissingBoto3);
      }
      region := options.region;
      aggregatorName := options.aggregatorName;
      configQuery := ConfigQuery;
      var fetched, _ := FetchAll(select, aggregatorName, fuel);
      if fetched.Failure? {
        return Failure(QueryFailed(fetched.error));
      }
      var decoded := DecodeAll(eval, fetched.value);
      if decoded.Failure? {
        return Failure(MalformedRecord(decoded.error));
      }
      var instances := decoded.value;
      var groups := DeriveGroups(instances);
      RegisterAll(inventory, groups);
      AddHosts(inventory, instances);
      outcome := Success(());
    }
  }
}
