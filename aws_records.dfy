/**
 * The normalisation stage of the AWS Config inventory plugin
 * (GD/custom/plugins/inventory/aws_config.py): each raw result string is
 * re-wrapped in braces and handed to Python's literal evaluator, and the
 * fields the plugin reads from the resulting record.
 */
module AwsRecords {
  import opened Wrappers

  /** One EC2 instance as the plugin reads it after literal evaluation. */
  datatype Instance = Instance(
    resourceId: string,
    accountId: string,
    awsRegion: string,
    stateName: string,          // configuration.state.name
    platform: Option<string>)   // configuration.platform, absent on Linux hosts

  /** Python's normalisation of one slice bound against a length `n`. */
  function SliceBound(i: int, n: nat): (k: nat)
    ensures k <= n
    ensures 0 <= i <= n ==> k == i
    ensures -(n as int) <= i < 0 ==> k == n + i
  {
    if i < 0 then (if i + n < 0 then 0 else i + n)
    else if i > n then n
    else i
  }

  /** Python's `s[start:stop]` (step 1): negative bounds count from the end, bounds are clamped. */
  function PySlice(s: string, start: int, stop: int): (r: string)
    ensures |r| <= |s|
  {
    var lo, hi := SliceBound(start, |s|), SliceBound(stop, |s|);
    if lo < hi then s[lo..hi] else []
  }

  /**
   * `'{%s}' % item[1:-1]`: drop the first and last character and wrap what is
   * left in braces. A string shorter than two characters leaves nothing inside.
   */
  function Rewrap(item: string): (r: string)
    ensures |r| >= 2 && r[0] == '{' && r[|r| - 1] == '}'
    ensures |item| >= 2 ==> |r| == |item| && r[1..|r| - 1] == item[1..|item| - 1]
    ensures |item| < 2 ==> r == "{}"
  {
    "{" + PySlice(item, 1, -1) + "}"
  }

  /**
   * The list comprehension that evaluates every re-wrapped record. `eval`
   * stands for `ast.literal_eval` followed by the plugin's key lookups: None
   * when it raises. The first record that fails ends the comprehension and
   * is reported.
   */
  function DecodeAll(eval: string -> Option<Instance>, raws: seq<string>): (r: Result<seq<Instance>, string>)
    ensures r.Success? <==> forall i :: 0 <= i < |raws| ==> eval(Rewrap(raws[i])).Some?
    ensures r.Success? ==>
      |r.value| == |raws| && forall i :: 0 <= i < |raws| ==> eval(Rewrap(raws[i])) == Some(r.value[i])
  {
    if raws == [] then Success([])
    else
      var n := |raws|;
      match DecodeAll(eval, raws[..n - 1])
      case Failure(bad) => Failure(bad)
      case Success(init) =>
        match eval(Rewrap(raws[n - 1]))
        case None => Failure(raws[n - 1])
        case Some(inst) => Success(init + [inst])
  }

  /** A failed evaluation reports the first raw record that does not evaluate. */
  lemma {:induction false} DecodeAllFirstFailure(eval: string -> Option<Instance>, raws: seq<string>)
    requires DecodeAll(eval, raws).Failure?
    ensures exists k :: 0 <= k < |raws| && raws[k] == DecodeAll(eval, raws).error && FirstFailureAt(eval, raws, k)
    decreases |raws|
  {
    var n := |raws|;
    var init := raws[..n - 1];
    if DecodeAll(eval, init).Failure? {
      DecodeAllFirstFailure(eval, init);
      var k :| 0 <= k < |init| && init[k] == DecodeAll(eval, init).error && FirstFailureAt(eval, init, k);
      assert raws[k] == init[k];
      forall j | 0 <= j < k
        ensures eval(Rewrap(raws[j])).Some?
      {
        assert raws[j] == init[j];
      }
    } else {
      forall j | 0 <= j < n - 1
        ensures eval(Rewrap(raws[j])).Some?
      {
        assert raws[j] == init[j];
      }
      assert FirstFailureAt(eval, raws, n - 1);
    }
  }

  /** Record `k` is the first that does not evaluate. */
  predicate FirstFailureAt(eval: string -> Option<Instance>, raws: seq<string>, k: nat)
    requires k < |raws|
  {
    eval(Rewrap(raws[k])).None? && forall j :: 0 <= j < k ==> eval(Rewrap(raws[j])).Some?
  }

  /** `str.replace("-", "_")` on a region name. */
  function Underscored(region: string): (r: string)
    ensures |r| == |region|
    ensures forall i :: 0 <= i < |r| ==> r[i] == (if region[i] == '-' then '_' else region[i])
    ensures '-' !in r
  {
    if region == [] then []
    else [if region[0] == '-' then '_' else region[0]] + Underscored(region[1..])
  }

  /** Normalising twice is the same as normalising once. */
  lemma {:induction false} UnderscoredIdempotent(region: string)
    ensures Underscored(Underscored(region)) == Underscored(region)
  {
    var once := Underscored(region);
    assert forall i :: 0 <= i < |once| ==> Underscored(once)[i] == once[i];
  }

  /** Normalisation works piecewise. */
  lemma {:induction false} UnderscoredConcat(a: string, b: string)
    ensures Underscored(a + b) == Underscored(a) + Underscored(b)
    decreases |a|
  {
    if a != [] {
      assert (a + b)[1..] == a[1..] + b;
      UnderscoredConcat(a[1..], b);
    }
  }

  /** A name without hyphens is left as it is. */
  lemma {:induction false} UnderscoredNoHyphen(s: string)
    requires '-' !in s
    ensures Underscored(s) == s
    decreases |s|
  {
    if s != [] {
      assert s[0] in s;
      assert forall c :: c in s[1..] ==> c in s;
      UnderscoredNoHyphen(s[1..]);
    }
  }

  /** A hyphen after a hyphen-free part becomes an underscore. */
  lemma UnderscoredJoin(a: string, b: string)
    requires '-' !in a
    ensures Underscored(a + "-" + b) == a + "_" + Underscored(b)
  {
    UnderscoredConcat(a + "-", b);
    UnderscoredConcat(a, "-");
    UnderscoredNoHyphen(a);
    assert Underscored("-")[0] == '_';
  }

  /** A region named like "us-east-1" becomes "us_east_1". */
  lemma RegionExample(area: string, direction: string, number: string)
    requires '-' !in area && '-' !in direction && '-' !in number
    ensures Underscored(area + "-" + direction + "-" + number) == area + "_" + direction + "_" + number
  {
    var tail := direction + "-" + number;
    JoinAssociative(area, direction, number, "-");
    JoinAssociative(area, direction, number, "_");
    UnderscoredPair(direction, number);
    UnderscoredJoin(area, tail);
  }

  lemma JoinAssociative(x: string, y: string, z: string, sep: string)
    ensures x + sep + (y + sep + z) == x + sep + y + sep + z
  {
  }

  /** Two hyphen-free parts joined by a hyphen become joined by an underscore. */
  lemma UnderscoredPair(a: string, b: string)
    requires '-' !in a && '-' !in b
    ensures Underscored(a + "-" + b) == a + "_" + b
  {
    UnderscoredJoin(a, b);
    UnderscoredNoHyphen(b);
  }

  /** The group an instance's region maps to. */
  function RegionGroup(inst: Instance): string
  {
    Underscored(inst.awsRegion)
  }

  /** The group on the platform axis: the platform when present, "linux" otherwise. */
  function PlatformGroup(inst: Instance): string
  {
    if inst.platform.Some? then inst.platform.value else "linux"
  }

  /**
   * On the platform axis a host is in "linux" exactly when it has no platform,
   * unless "linux" is also the name of its platform, account, region or state.
   */
  lemma LinuxExactlyWithoutPlatform(inst: Instance)
    requires inst.accountId != "linux" && inst.stateName != "linux"
    requires RegionGroup(inst) != "linux" && inst.platform != Some("linux")
    ensures "linux" in HostGroups(inst) <==> inst.platform.None?
  {
  }

  /** The four groups a host joins: account, region, state, and platform or "linux". */
  function HostGroups(inst: Instance): set<string>
  {
    {inst.accountId, RegionGroup(inst), inst.stateName, PlatformGroup(inst)}
  }
}
