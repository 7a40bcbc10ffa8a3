/**
 * The inventory the AWS Config plugin fills: groups, hosts, host-to-group
 * memberships and host variables. Only the behaviour the plugin relies on is
 * modelled: every add is idempotent, adding a host to a group needs the group
 * to exist, and setting a variable needs the host to exist.
 */
module InventorySink {
  import opened Wrappers

  /** The inventory's contents as a value. */
  datatype SinkState = SinkState(
    groups: set<string>,
    hosts: set<string>,
    memberships: map<string, set<string>>,
    vars: map<string, map<string, string>>)

  const EmptySink: SinkState := SinkState({}, {}, map[], map[])

  /** The groups host `h` belongs to. */
  function MembersOf(s: SinkState, h: string): set<string>
  {
    if h in s.memberships then s.memberships[h] else {}
  }

  /** The variables of host `h`. */
  function VarsOf(s: SinkState, h: string): map<string, string>
  {
    if h in s.vars then s.vars[h] else map[]
  }

  /** Every host has a membership entry, variables belong to known hosts, and every membership names a known group. */
  predicate Consistent(s: SinkState)
  {
    && s.memberships.Keys == s.hosts
    && s.vars.Keys <= s.hosts
    && forall h :: h in s.memberships ==> s.memberships[h] <= s.groups
  }

  /** `add_group(g)`. */
  function WithGroup(s: SinkState, g: string): (r: SinkState)
    ensures r.groups == s.groups + {g}
    ensures r.hosts == s.hosts && r.memberships == s.memberships && r.vars == s.vars
  {
    s.(groups := s.groups + {g})
  }

  /** `add_host(h)` or `add_host(h, group=g)`. */
  function WithHost(s: SinkState, h: string, g: Option<string>): (r: SinkState)
    ensures r.hosts == s.hosts + {h} && r.groups == s.groups && r.vars == s.vars
    ensures h in r.memberships
    ensures MembersOf(r, h) == MembersOf(s, h) + (if g.Some? then {g.value} else {})
    ensures forall x :: x != h ==> MembersOf(r, x) == MembersOf(s, x)
  {
    s.(hosts := s.hosts + {h},
       memberships := s.memberships[h := MembersOf(s, h) + (if g.Some? then {g.value} else {})])
  }

  /** `set_variable(h, key, value)`. */
  function WithVariable(s: SinkState, h: string, key: string, value: string): (r: SinkState)
    ensures r.hosts == s.hosts && r.groups == s.groups && r.memberships == s.memberships
    ensures VarsOf(r, h) == VarsOf(s, h)[key := value]
    ensures forall x :: x != h ==> VarsOf(r, x) == VarsOf(s, x)
  {
    s.(vars := s.vars[h := VarsOf(s, h)[key := value]])
  }

  /** Each operation is idempotent: repeating it changes nothing. */
  lemma Idempotent(s: SinkState, h: string, g: Option<string>, group: string, key: string, value: string)
    ensures WithGroup(WithGroup(s, group), group) == WithGroup(s, group)
    ensures WithHost(WithHost(s, h, g), h, g) == WithHost(s, h, g)
    ensures WithVariable(WithVariable(s, h, key, value), h, key, value) == WithVariable(s, h, key, value)
  {
    var once := WithHost(s, h, g);
    assert WithHost(once, h, g).memberships == once.memberships;
    var set1 := WithVariable(s, h, key, value);
    assert VarsOf(set1, h)[key := value] == VarsOf(set1, h);
    assert WithVariable(set1, h, key, value).vars == set1.vars;
  }

  /** The operations keep the inventory consistent when hosts join only existing groups. */
  lemma ConsistencyKept(s: SinkState, h: string, g: Option<string>, group: string, key: string, value: string)
    requires Consistent(s)
    ensures Consistent(WithGroup(s, group))
    ensures g.Some? && g.value in s.groups ==> Consistent(WithHost(s, h, g))
    ensures g.None? ==> Consistent(WithHost(s, h, g))
    ensures h in s.hosts ==> Consistent(WithVariable(s, h, key, value))
  {
  }

  /** The inventory object the plugin is handed. */
  class Inventory {
    var groups: set<string>
    var hosts: set<string>
    var memberships: map<string, set<string>>
    var vars: map<string, map<string, string>>

    function State(): SinkState
      reads this
    {
      SinkState(groups, hosts, memberships, vars)
    }

    constructor ()
      ensures State() == EmptySink
    {
      groups, hosts, memberships, vars := {}, {}, map[], map[];
    }

    method AddGroup(g: string)
      modifies this
      ensures State() == WithGroup(old(State()), g)
    {
      groups := groups + {g};
    }

    /** Adding to a group that does not exist is an error of the inventory, so it is excluded. */
    method AddHost(h: string, g: Option<string>)
      requires g.Some? ==> g.value in groups
      modifies this
      ensures State() == WithHost(old(State()), h, g)
    {
      var current := if h in memberships then memberships[h] else {};
      hosts := hosts + {h};
      memberships := memberships[h := current + (if g.Some? then {g.value} else {})];
    }

    /** Setting a variable of an unknown host is an error of the inventory, so it is excluded. */
    method SetVariable(h: string, key: string, value: string)
      requires h in hosts
      modifies this
      ensures State() == WithVariable(old(State()), h, key, value)
    {
      var current := if h in vars then vars[h] else map[];
      vars := vars[h := current[key := value]];
    }
  }
}
