/** Extension configurations and the persisted entries that pair them with an `enabled` flag. */
module Extensions {
  import opened Wrappers

  /**
   * The per-extension timeout in seconds used when none is chosen
   * (`goose::config::DEFAULT_EXTENSION_TIMEOUT`).
   */
  const DefaultExtensionTimeout: nat := 300

  datatype ExtensionConfig =
    | Builtin(name: string, timeout: Option<nat>)
    | Stdio(name: string, cmd: string, args: seq<string>, envs: map<string, string>, timeout: Option<nat>)
    | Sse(name: string, uri: string, envs: map<string, string>, timeout: Option<nat>)

  datatype ExtensionEntry = ExtensionEntry(enabled: bool, config: ExtensionConfig)

  /**
   * Inserting key/value pairs into a `HashMap` one after another: a later pair
   * with the same key overwrites an earlier one.
   */
  function InsertAll(pairs: seq<(string, string)>): map<string, string> {
    if pairs == [] then map[]
    else InsertAll(pairs[..|pairs| - 1])[pairs[|pairs| - 1].0 := pairs[|pairs| - 1].1]
  }

  lemma InsertAllSnoc(pairs: seq<(string, string)>, p: (string, string))
    ensures InsertAll(pairs + [p]) == InsertAll(pairs)[p.0 := p.1]
  {
    assert (pairs + [p])[..|pairs|] == pairs;
  }

  /**
   * The keys are exactly the entered keys, and each key holds the value of the
   * LAST pair that carries it.
   */
  lemma {:induction false} InsertAllLastWins(pairs: seq<(string, string)>)
    ensures InsertAll(pairs).Keys == set i | 0 <= i < |pairs| :: pairs[i].0
    ensures forall i | 0 <= i < |pairs| && (forall j | i < j < |pairs| :: pairs[j].0 != pairs[i].0) ::
      InsertAll(pairs)[pairs[i].0] == pairs[i].1
    decreases |pairs|
  {
    if pairs != [] {
      var init := pairs[..|pairs| - 1];
      InsertAllLastWins(init);
      forall i | 0 <= i < |pairs| - 1 ensures pairs[i] == init[i] { }
      assert (set i | 0 <= i < |pairs| :: pairs[i].0)
        == (set i | 0 <= i < |init| :: init[i].0) + {pairs[|pairs| - 1].0};
    }
  }
}
