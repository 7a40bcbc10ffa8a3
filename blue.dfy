/**
 * The `blue` Jinja test plugin (local/colors/plugins/test/blue.py): a predicate
 * that accepts exactly the strings "blue" and "test", and the registration map
 * through which the plugin host finds it.
 */
module BlueTest {

  /** The value a template hands to the test: a string, or any other value (None included). */
  datatype Arg = Str(s: string) | NonString

  /** The list the argument is looked up in. */
  const Accepted: seq<string> := ["blue", "test"]

  /** `is_blue`: list membership, so an exact, case-sensitive match; never raises. */
  function IsBlue(x: Arg): (b: bool)
    ensures b <==> x == Str("blue") || x == Str("test")
  {
    match x
    case Str(s) => s in Accepted
    case NonString => false
  }

  /** The worked cases: both accepted words, and near misses that differ in case or spacing. */
  lemma IsBlueExamples()
    ensures IsBlue(Str("blue")) && IsBlue(Str("test"))
    ensures !IsBlue(Str("red")) && !IsBlue(Str("Blue")) && !IsBlue(Str("blue ")) && !IsBlue(Str(""))
    ensures !IsBlue(NonString)
  {
  }

  /** `TestModule.tests()`: one entry, "blue", bound to the predicate. */
  function Tests(): (registry: map<string, Arg -> bool>)
    ensures registry.Keys == {"blue"}
    ensures forall x :: registry["blue"](x) == IsBlue(x)
  {
    map["blue" := IsBlue]
  }
}
