/**
 * The argument parsing of the session's `/extension` and `/builtin`
 * commands (`Session::add_extension`, `Session::add_builtin`): pure
 * functions of the typed text.
 */
module SessionCommands {
  import opened Wrappers
  import opened Text
  import opened Extensions

  const NoCommandProvided: string := "No command provided in extension string"
  const FailedExtension: string := "Failed to start extension: "
  const FailedBuiltin: string := "Failed to start builtin extension: "

  /** How many leading words are `KEY=value` assignments (contain an `=`). */
  function EnvPrefixLength(tokens: seq<string>): (n: nat)
    ensures n <= |tokens|
    ensures forall j | 0 <= j < n :: '=' in tokens[j]
    ensures n == |tokens| || '=' !in tokens[n]
  {
    if tokens == [] || '=' !in tokens[0] then 0 else 1 + EnvPrefixLength(tokens[1..])
  }

  /** Each assignment cut at its first `=` into a key and a value. */
  function EnvPairs(tokens: seq<string>): (pairs: seq<(string, string)>)
    requires forall j | 0 <= j < |tokens| :: '=' in tokens[j]
    ensures |pairs| == |tokens|
    ensures forall j | 0 <= j < |tokens| :: pairs[j].0 + "=" + pairs[j].1 == tokens[j] && '=' !in pairs[j].0
  {
    seq(|tokens|, j requires 0 <= j < |tokens| => SplitOnce(tokens[j], '='))
  }

  lemma EnvPairsSnoc(tokens: seq<string>, k: nat)
    requires k < |tokens|
    requires forall j | 0 <= j <= k :: '=' in tokens[j]
    ensures EnvPairs(tokens[..k + 1]) == EnvPairs(tokens[..k]) + [SplitOnce(tokens[k], '=')]
  {
    assert tokens[..k + 1][..k] == tokens[..k];
  }

  /** Every word is a `KEY=value` assignment. */
  predicate AllAssignments(tokens: seq<string>) {
    forall j | 0 <= j < |tokens| :: '=' in tokens[j]
  }

  /** A parsed `/extension` command: environment, command and arguments. */
  datatype StdioCommand = StdioCommand(envs: map<string, string>, cmd: string, args: seq<string>)

  /**
   * The words of the command text are read as: leading `KEY=value`
   * assignments, then the command (the first word without `=`), then its
   * arguments. Text made only of assignments (or of nothing) has no command.
   */
  function ParseExtensionCommand(command: string): Result<StdioCommand, string> {
    var tokens := Words(command);
    var n := EnvPrefixLength(tokens);
    if n == |tokens| then Err(NoCommandProvided)
    else Ok(StdioCommand(InsertAll(EnvPairs(tokens[..n])), tokens[n], tokens[n + 1..]))
  }

  /**
   * The command is missing exactly when every word is an assignment. Otherwise
   * the words before the command are all assignments, the command is a word
   * without `=`, the arguments are all the words after it, and the
   * environment holds the assignments in order.
   */
  lemma ParseExtensionCommandShape(command: string)
    ensures var r := ParseExtensionCommand(command); var tokens := Words(command);
      && (r.Err? <==> AllAssignments(tokens))
      && (r.Err? ==> r.error == NoCommandProvided)
      && (r.Ok? ==>
        var n := |tokens| - |r.value.args| - 1;
        && 0 <= n
        && (forall j | 0 <= j < n :: '=' in tokens[j])
        && tokens[n] == r.value.cmd && '=' !in r.value.cmd && IsWord(r.value.cmd)
        && r.value.args == tokens[n + 1..]
        && r.value.envs == InsertAll(EnvPairs(tokens[..n])))
  {
    var tokens := Words(command);
    var n := EnvPrefixLength(tokens);
    var r := ParseExtensionCommand(command);
    if n == |tokens| {
      assert AllAssignments(tokens);
      assert r == Err(NoCommandProvided);
    } else {
      assert !AllAssignments(tokens) by {
        assert '=' !in tokens[n];
      }
      assert r == Ok(StdioCommand(InsertAll(EnvPairs(tokens[..n])), tokens[n], tokens[n + 1..]));
      assert |tokens| - |r.value.args| - 1 == n;
    }
  }

  /** `KEY=value` for every pair. */
  function Assignments(pairs: seq<(string, string)>): seq<string> {
    seq(|pairs|, j requires 0 <= j < |pairs| => pairs[j].0 + "=" + pairs[j].1)
  }

  /**
   * Writing assignments, a command and its arguments out as space-separated
   * words and parsing the text again gives back the same environment (later
   * assignments to a key win), command and arguments.
   */
  lemma ExtensionCommandRoundTrip(pairs: seq<(string, string)>, cmd: string, args: seq<string>)
    requires forall j | 0 <= j < |pairs| :: '=' !in pairs[j].0 && IsWord(pairs[j].0 + "=" + pairs[j].1)
    requires IsWord(cmd) && '=' !in cmd
    requires forall j | 0 <= j < |args| :: IsWord(args[j])
    ensures ParseExtensionCommand(JoinWith(Assignments(pairs) + [cmd] + args, " "))
      == Ok(StdioCommand(InsertAll(pairs), cmd, args))
  {
    var assigns := Assignments(pairs);
    AssignmentsParse(pairs);
    var tokens := assigns + [cmd] + args;
    WordsOfTokens(assigns, cmd, args);
    var n := |pairs|;
    assert forall j | 0 <= j < n :: tokens[j] == assigns[j];
    assert tokens[n] == cmd;
    assert EnvPrefixLength(tokens) == n;
    assert tokens[..n] == assigns;
    assert tokens[n + 1..] == args;
  }

  /** Every assignment has an `=`, and cutting the assignments again gives the pairs. */
  lemma AssignmentsParse(pairs: seq<(string, string)>)
    requires forall j | 0 <= j < |pairs| :: '=' !in pairs[j].0
    ensures forall j | 0 <= j < |pairs| :: '=' in Assignments(pairs)[j]
    ensures EnvPairs(Assignments(pairs)) == pairs
  {
    var assigns := Assignments(pairs);
    forall j | 0 <= j < |pairs| ensures '=' in assigns[j] && SplitOnce(assigns[j], '=') == pairs[j] {
      SplitOnceOf(pairs[j].0, '=', pairs[j].1);
      assert assigns[j] == pairs[j].0 + ['='] + pairs[j].1;
    }
  }

  lemma WordsOfTokens(assigns: seq<string>, cmd: string, args: seq<string>)
    requires forall j | 0 <= j < |assigns| :: IsWord(assigns[j])
    requires IsWord(cmd)
    requires forall j | 0 <= j < |args| :: IsWord(args[j])
    ensures Words(JoinWith(assigns + [cmd] + args, " ")) == assigns + [cmd] + args
  {
    var tail := [cmd] + args;
    WordsConcat([cmd], args);
    WordsConcat(assigns, tail);
    assert assigns + [cmd] + args == assigns + tail;
    WordsOfJoin(assigns + tail);
  }

  lemma WordsConcat(a: seq<string>, b: seq<string>)
    requires forall j | 0 <= j < |a| :: IsWord(a[j])
    requires forall j | 0 <= j < |b| :: IsWord(b[j])
    ensures forall j | 0 <= j < |a + b| :: IsWord((a + b)[j])
  {
    forall j | 0 <= j < |a + b| ensures IsWord((a + b)[j]) {
      if j < |a| {
        assert (a + b)[j] == a[j];
      } else {
        assert (a + b)[j] == b[j - |a|];
      }
    }
  }

  /** One builtin extension per comma-separated piece: its trimmed name with the default timeout. */
  function BuiltinConfigs(names: string): seq<ExtensionConfig> {
    PieceConfigs(SplitOn(names, ','))
  }

  function PieceConfigs(pieces: seq<string>): seq<ExtensionConfig> {
    seq(|pieces|, i requires 0 <= i < |pieces| => BuiltinConfig(pieces[i]))
  }

  function BuiltinConfig(piece: string): ExtensionConfig {
    Builtin(Trim(piece), Some(DefaultExtensionTimeout))
  }

  /**
   * There are as many builtins as comma-separated pieces; each has the
   * default timeout, and its name is its piece with the outer whitespace cut,
   * so it has no comma and neither starts nor ends with whitespace.
   */
  lemma BuiltinConfigsShape(names: string)
    ensures var cs := BuiltinConfigs(names); var pieces := SplitOn(names, ',');
      && |cs| == |pieces|
      && forall i | 0 <= i < |cs| ::
        && cs[i].Builtin? && cs[i].timeout == Some(DefaultExtensionTimeout)
        && IsTrimOf(cs[i].name, pieces[i])
        && ',' !in cs[i].name
  {
    var pieces := SplitOn(names, ',');
    var cs := BuiltinConfigs(names);
    forall i | 0 <= i < |cs|
      ensures IsTrimOf(cs[i].name, pieces[i]) && ',' !in cs[i].name
    {
      TrimShape(pieces[i]);
      var t := Trim(pieces[i]);
      var k := LeadingSpace(pieces[i]);
      assert t == pieces[i][k..k + |t|];
    }
  }

  /** Joining trimmed, comma-free names with commas and reading them back gives the same names, in order. */
  lemma BuiltinConfigsRoundTrip(ns: seq<string>)
    requires |ns| >= 1
    requires forall i | 0 <= i < |ns| :: ',' !in ns[i] && Trim(ns[i]) == ns[i]
    ensures var cs := BuiltinConfigs(JoinWith(ns, ","));
      |cs| == |ns| && forall i | 0 <= i < |ns| :: cs[i] == Builtin(ns[i], Some(DefaultExtensionTimeout))
  {
    SplitOnJoin(ns, ',');
    var cs := BuiltinConfigs(JoinWith(ns, ","));
    forall i | 0 <= i < |ns| ensures cs[i] == Builtin(ns[i], Some(DefaultExtensionTimeout)) {
      assert cs[i] == BuiltinConfig(ns[i]);
    }
  }

  /** The position of the first failed start, or the number of starts when none failed. */
  function FirstFailure(results: seq<Result<(), string>>): (k: nat)
    ensures k <= |results|
    ensures forall j | 0 <= j < k :: results[j].Ok?
    ensures k < |results| ==> results[k].Err?
  {
    if results == [] || results[0].Err? then 0 else 1 + FirstFailure(results[1..])
  }
}
