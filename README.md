# AWS Config inventory and `blue` test plugins, modelled in Dafny

This project models two Ansible plugins.

**The `aws_config` dynamic inventory plugin** (`GD/custom/plugins/inventory/aws_config.py`) works in five stages:

1. It recognises its configuration files by their names.
2. It pages through an AWS Config aggregator query, following continuation tokens.
3. It turns each raw result into an instance record: it strips the result's outer characters, re-wraps the content in braces and evaluates it as a literal.
4. It derives a duplicate-free list of group names, seeded with `"linux"`.
5. It registers those groups and adds one host per instance. Each host gets `ansible_host` set to its resource id and joins four groups: its account, its normalised region (hyphens become underscores), its state, and its platform (`"linux"` when the platform is absent).

**The `blue` Jinja test plugin** (`local/colors/plugins/test/blue.py`) is a predicate that accepts exactly `"blue"` and `"test"`. It is registered under the name `"blue"`.

Modules:

- `Wrappers`: the `Option` and `Result` types.
- `AwsRecords`: instance records, the slice-and-rewrap of raw results, literal evaluation of every result, and region normalisation.
- `AwsQuery`: the paginated query, as a loop proved against the recursive `Collect`.
- `AwsGroups`: the group derivation loop, proved against `GroupNames`.
- `InventorySink`: the inventory the plugin fills. It is a class whose methods are tied to pure state transformers.
- `HostProjection`: the group registration and host loops, proved against `RegisterGroups` and `ProjectAll`.
- `AwsConfig`: `verify_file` and `parse`, plus the end-to-end properties of a run.
- `BlueTest`: the `blue` test plugin.

Things the code depends on but cannot see are parameters:

- the base plugin's file check (`baseAccepts`);
- the options read from the configuration file (`options`);
- the aggregator client (`select`, a function from request to response or client error);
- Python's literal evaluator (`eval`, where `None` means it raised);
- whether boto3 could be imported (`hasBoto3`).

## Model

| member | source | states |
|---|---|---|
| BlueTest.IsBlue | local/colors/plugins/test/blue.py:10-15 | true exactly for the strings "blue" and "test"; every other string and every non-string is rejected |
| BlueTest.IsBlueExamples | local/colors/plugins/test/blue.py:10-15 | "blue" and "test" are accepted; "red", "Blue", "blue ", "" and a non-string are rejected (match is exact and case-sensitive) |
| BlueTest.Tests | local/colors/plugins/test/blue.py:21-24 | the registry has exactly one key, "blue", and it maps to the `is_blue` predicate on every argument |
| AwsConfig.VerifyFile | GD/custom/plugins/inventory/aws_config.py:128-137 | accepted iff the base check accepts and the path ends in "aws_config.yml" or "aws_config.yaml" |
| AwsConfig.VerifyFileYamlOnly | GD/custom/plugins/inventory/aws_config.py:134-137 | an accepted path ends in ".yml" or ".yaml"; both file names are accepted in any directory; nothing is accepted when the base check refuses |
| AwsQuery.RequestFor | GD/custom/plugins/inventory/aws_config.py:176-189 | every request carries the fixed query, the configured aggregator and a limit of 100; only the continuation token differs |
| AwsQuery.ChainYieldsCollect | GD/custom/plugins/inventory/aws_config.py:176-190 | a request chain that starts without a token, passes on each page's token and stops at the first error or tokenless page yields the concatenated pages, or the first error, as the reference `Collect` does |
| AwsQuery.FetchAll | GD/custom/plugins/inventory/aws_config.py:176-190 | the pagination loop: its requests form such a chain, every request but the last was answered with a token, and its result equals `Collect` (all pages' results in response order, or the client error) |
| AwsRecords.Rewrap | GD/custom/plugins/inventory/aws_config.py:192 | `'{%s}' % item[1:-1]` with Python slicing: the result is brace-delimited; for items of two or more characters it has the item's length and inner characters; shorter items become "{}" |
| AwsRecords.DecodeAll | GD/custom/plugins/inventory/aws_config.py:192 | succeeds iff every re-wrapped record evaluates, and then returns one record per raw result, pointwise and in order |
| AwsRecords.DecodeAllFirstFailure | GD/custom/plugins/inventory/aws_config.py:192 | a failed evaluation reports the first raw record that does not evaluate: every earlier one does |
| AwsRecords.Underscored | GD/custom/plugins/inventory/aws_config.py:206-207 | `replace("-", "_")`: same length, each hyphen replaced by an underscore and every other character kept, no hyphen left |
| AwsRecords.UnderscoredIdempotent | GD/custom/plugins/inventory/aws_config.py:206-207 | normalising a region twice is normalising it once |
| AwsRecords.UnderscoredConcat | GD/custom/plugins/inventory/aws_config.py:206-207 | normalisation distributes over concatenation |
| AwsRecords.UnderscoredJoin | GD/custom/plugins/inventory/aws_config.py:206-207 | a hyphen after a hyphen-free part becomes an underscore, and the rest is normalised in turn |
| AwsRecords.UnderscoredPair | GD/custom/plugins/inventory/aws_config.py:206-207 | two hyphen-free parts joined by a hyphen come out joined by an underscore |
| AwsRecords.UnderscoredNoHyphen | GD/custom/plugins/inventory/aws_config.py:206-207 | a name without hyphens is left unchanged |
| AwsRecords.RegionExample | GD/custom/plugins/inventory/aws_config.py:206-207 | a region shaped like "us-east-1" is normalised to the shape "us_east_1" |
| AwsRecords.LinuxExactlyWithoutPlatform | GD/custom/plugins/inventory/aws_config.py:229-236 | when no other field is "linux", a host joins "linux" iff its record has no platform |
| AwsGroups.FirstIndex | GD/custom/plugins/inventory/aws_config.py:196-207 | the position of the first occurrence of a name, used to state first-seen order |
| AwsGroups.InstanceCandidates | GD/custom/plugins/inventory/aws_config.py:200-207 | one instance offers four candidate names with a platform and three without |
| AwsGroups.AddAllNewProperties | GD/custom/plugins/inventory/aws_config.py:196-207 | guarded appends keep the old list as a prefix, contain exactly the old names and the candidates, stay duplicate-free, add only candidates not already present, and order new names by their first occurrence among the candidates |
| AwsGroups.AddAllNewAppend | GD/custom/plugins/inventory/aws_config.py:198-207 | processing two candidate lists one after the other equals processing their concatenation |
| AwsGroups.AddInstanceCandidates | GD/custom/plugins/inventory/aws_config.py:200-207 | one instance's candidates are appended as account, platform if present, state, normalised region, each only when missing |
| AwsGroups.GroupNamesSeeded | GD/custom/plugins/inventory/aws_config.py:196 | the group list starts with "linux" and has no duplicates |
| AwsGroups.GroupNamesCover | GD/custom/plugins/inventory/aws_config.py:196-236 | every group any host joins is in the group list |
| AwsGroups.GroupNamesOnlyCandidates | GD/custom/plugins/inventory/aws_config.py:196-207 | the group list holds only "linux" and the names some instance offers |
| AwsGroups.GroupNamesFirstSeen | GD/custom/plugins/inventory/aws_config.py:198-207 | after "linux", the names appear in the order they are first seen among the candidates |
| AwsGroups.DeriveGroups | GD/custom/plugins/inventory/aws_config.py:196-207 | the derivation loop computes `GroupNames`: seeded with "linux", duplicate-free, and holding every group of every instance |
| InventorySink.WithGroup | GD/custom/plugins/inventory/aws_config.py:210 | `add_group` adds the group and nothing else |
| InventorySink.WithHost | GD/custom/plugins/inventory/aws_config.py:216-236 | `add_host` adds the host and gives it a membership entry, adds the optional group to its memberships, leaves every other host's memberships alone, and leaves groups and variables alone |
| InventorySink.WithVariable | GD/custom/plugins/inventory/aws_config.py:217-219 | `set_variable` sets the key for that host and keeps its other keys, leaves every other host's variables alone, and leaves hosts, groups and memberships alone |
| InventorySink.Idempotent | GD/custom/plugins/inventory/aws_config.py:209-236 | repeating an add_group, add_host or set_variable call immediately changes nothing |
| InventorySink.ConsistencyKept | GD/custom/plugins/inventory/aws_config.py:209-236 | each call keeps the inventory consistent when hosts join only registered groups and variables are set only on known hosts |
| InventorySink.Inventory.AddGroup | GD/custom/plugins/inventory/aws_config.py:210 | the inventory's new state is `WithGroup` of the old |
| InventorySink.Inventory.AddHost | GD/custom/plugins/inventory/aws_config.py:216-236 | the inventory's new state is `WithHost` of the old; the group must already exist |
| InventorySink.Inventory.SetVariable | GD/custom/plugins/inventory/aws_config.py:217-219 | the inventory's new state is `WithVariable` of the old; the host must already exist |
| HostProjection.ResourceIdsMembership | GD/custom/plugins/inventory/aws_config.py:215-216 | a host id is among the projected ids iff some instance carries it |
| HostProjection.RegisterGroups | GD/custom/plugins/inventory/aws_config.py:209-210 | registering the list adds exactly its names as groups and changes nothing else |
| HostProjection.RegisterAll | GD/custom/plugins/inventory/aws_config.py:209-210 | the registration loop leaves the inventory in the state `RegisterGroups` gives |
| HostProjection.ProjectInstance | GD/custom/plugins/inventory/aws_config.py:216-236 | one instance's six calls add its host, give it exactly its four groups more, set `ansible_host` to its id, and touch no other host |
| HostProjection.ProjectInstanceIdempotent | GD/custom/plugins/inventory/aws_config.py:216-236 | the six calls for one record, made a second time, leave the inventory as the first time did |
| HostProjection.ProjectAllRepeated | GD/custom/plugins/inventory/aws_config.py:215-236 | projecting the two-record list [inst, inst] from any inventory equals projecting [inst] |
| HostProjection.ProjectAllAppend | GD/custom/plugins/inventory/aws_config.py:215-236 | projecting a concatenation of record lists is projecting the first, then the second, from where the first left off |
| HostProjection.RepeatedRecordHarmless | GD/custom/plugins/inventory/aws_config.py:215-236 | anywhere in the record list, a record repeated right after itself gives the same inventory as a single appearance |
| HostProjection.SharedIdMergesGroups | GD/custom/plugins/inventory/aws_config.py:215-236 | two different records sharing a resource id put that one host in the groups of both |
| HostProjection.GroupsForSnoc | GD/custom/plugins/inventory/aws_config.py:215-236 | one more record adds its four groups to its own id and nothing to other ids |
| HostProjection.ProjectAllHosts | GD/custom/plugins/inventory/aws_config.py:215-236 | the host loop adds no group and adds exactly the instances' resource ids as hosts |
| HostProjection.ProjectAllMembers | GD/custom/plugins/inventory/aws_config.py:215-236 | a host's groups afterwards are its groups before plus those of every instance with its id |
| HostProjection.ProjectAllVars | GD/custom/plugins/inventory/aws_config.py:217-219 | a projected host's `ansible_host` is its own id; the variables of every other host are unchanged |
| HostProjection.GroupsForCover | GD/custom/plugins/inventory/aws_config.py:220-236 | every instance contributes its four groups to its own id |
| HostProjection.GroupsForUnique | GD/custom/plugins/inventory/aws_config.py:220-236 | an id carried by one instance only collects exactly that instance's groups |
| HostProjection.GroupsForAbsent | GD/custom/plugins/inventory/aws_config.py:215-236 | an id no instance carries collects no group |
| HostProjection.GroupsForAbsentIds | GD/custom/plugins/inventory/aws_config.py:215-236 | an id outside the projected ids collects no group |
| HostProjection.GroupsForRegistered | GD/custom/plugins/inventory/aws_config.py:209-236 | when every instance's groups are registered, every group collected by any id is registered |
| HostProjection.ProjectAllPlacesHosts | GD/custom/plugins/inventory/aws_config.py:215-236 | afterwards every instance's id is a host with `ansible_host` equal to that id and membership of its account, region, state and platform-or-"linux" groups |
| HostProjection.ProjectAllExactGroups | GD/custom/plugins/inventory/aws_config.py:215-236 | a new host whose id occurs once belongs to exactly its four groups and no other |
| HostProjection.ProjectAllConsistent | GD/custom/plugins/inventory/aws_config.py:209-236 | projection after registration keeps the inventory consistent: every host has memberships, variables belong to hosts, and every membership names a registered group |
| HostProjection.AddHosts | GD/custom/plugins/inventory/aws_config.py:215-236 | the host loop, making the six inventory calls per instance in source order, leaves the inventory in the state `ProjectAll` gives |
| AwsConfig.InventorizeProperties | GD/custom/plugins/inventory/aws_config.py:196-236 | a successful run registers "linux" and every derived group; adds exactly the instances' ids as hosts; gives each host `ansible_host` and its four groups, all registered; and keeps a consistent inventory consistent |
| AwsConfig.MalformedRecordFails | GD/custom/plugins/inventory/aws_config.py:192 | a record that fails to evaluate makes the whole run fail with a malformed-record error, whichever record it is |
| AwsConfig.LinuxInstanceGroups | GD/custom/plugins/inventory/aws_config.py:196-207 | for one instance without a platform, whose account, state and region are distinct and not "linux", the group list is "linux", account, state, region, in that order |
| AwsConfig.LinuxInstanceExample | GD/custom/plugins/inventory/aws_config.py:196-236 | one instance without a platform yields exactly one host, in exactly "linux", its account, its region and its state, with `ansible_host` set to its id |
| AwsConfig.InventoryModule.constructor | GD/custom/plugins/inventory/aws_config.py:124-126 | a fresh plugin object has no options and no query recorded |
| AwsConfig.InventoryModule.Parse | GD/custom/plugins/inventory/aws_config.py:139-236 | fails with the boto3 error, the first client error or the first malformed record, and then leaves the inventory unchanged; otherwise the inventory ends as the reference `ParseSpec` says. When boto3 is present, the options and the query are recorded on the plugin |

## Left out

- The network call is not modelled. The aggregator is the `select` parameter, and AWS errors such as access denied or an unknown aggregator are its `Failure` answers.
- AwsQuery.FetchAll: termination is assumed through the ghost `fuel` and the `Exhausts` precondition. The model requires that the aggregator eventually answers with an error or a page without a token. The source loops for as long as tokens keep coming.
- Python's `ast.literal_eval` and the key lookups on its result are the `eval` parameter. A record with a missing key is treated like one that does not evaluate, so `parse` fails with `MalformedRecord` at that record. In the source, a missing `accountId`, `configuration`, `state` `name` or `awsRegion` raises a `KeyError` in the group loop (aws_config.py:198-207). That loop runs after every record has been evaluated (:192) and before the first `add_group` (:209-210). So the source also fails before touching the inventory, but a `literal_eval` failure in any later record is raised first, where the model reports the earlier record.
- A record without a `resourceId` is also folded into `eval`, so the model fails before touching the inventory. In the source that lookup is first made at aws_config.py:216 and raises a `KeyError` mid-projection: every group is already registered and the earlier hosts are already projected, so the source leaves a partial inventory.
- The inventory never rejects a name in the model. Ansible's inventory refuses some names, for example an empty group name in `add_group`, and raises with the earlier calls kept. That is another way the source can leave a partial inventory; "leaves the inventory as it was" holds in the model only.
- A record whose `platform` key is present but not a string is not modelled; the platform is an optional string.
- `super().verify_file`, `super().parse`, `_read_config_data` and `get_option` belong to the plugin framework. Their results are the `baseAccepts` and `options` inputs. A configuration file that fails to load is not modelled.
- The `HAS_BOTO3` import guard is the `hasBoto3` input.
- The `loader`, `path` and `cache` parameters of `parse` are not used by the modelled code.
- The `region` option is recorded on the plugin but never used by the source. The other documented options and the `DOCUMENTATION` string are not modelled.
- The commented-out `pdb` breakpoint is left out.
- Ansible's inventory internals are not modelled: the implicit "all" and "ungrouped" groups, host objects and name sanitising. The inventory is modelled as sets and maps of names.
- Adding a host to a group that does not exist, and setting a variable on an unknown host, raise in Ansible. Both are excluded by preconditions of `InventorySink.Inventory.AddHost` and `InventorySink.Inventory.SetVariable`. The plugin always registers groups and adds hosts first, as `HostProjection.AddHosts` shows.
- AwsRecords.RegionExample: the worked example's region is proved for every region shaped area-direction-number. It is not proved for the literal "us-east-1".
- AwsConfig.LinuxInstanceExample: the worked example is proved for every instance without a platform. It is not proved for the literal account, state and region values.
- AwsConfig.MalformedRecordFails: "no host is added" follows from `InventoryModule.Parse`, which leaves the inventory unchanged on every error. The lemma itself states only the error.
- BlueTest.IsBlue: Python values other than strings are collapsed into one `NonString` case, and equality with a string is always false for them.
