/**
 * The `configure` command's dialogs, with every answer the user would give
 * at a prompt passed in as an argument. A prompt with a validator keeps
 * asking until the validator accepts, so an answer given to a dialog is
 * one its validator accepts.
 */
module Configure {
  import opened Wrappers
  import opened Text
  import opened Extensions
  import opened Modes
  import opened ConfigStore

  const EnterName: string := "Please enter a name"
  const NameTaken: string := "An extension with this name already exists"
  const EnterCommand: string := "Please enter a command"
  const EnterUri: string := "Please enter a URI"
  const UriScheme: string := "URI should start with http:// or https://"
  const InvalidTimeout: string := "Please enter a valide timeout"

  /** The extension-name check: not empty, and not the name of a configured extension. */
  function ValidateName(input: string, existing: set<string>): (r: Result<(), string>)
    ensures r.Ok? <==> input != "" && input !in existing
    ensures r.Err? ==> r.error == (if input == "" then EnterName else NameTaken)
  {
    if input == "" then Err(EnterName)
    else if input in existing then Err(NameTaken)
    else Ok(())
  }

  /** The command check as written: only the empty string is refused. */
  function ValidateCommand(input: string): (r: Result<(), string>)
    ensures r.Ok? <==> input != ""
    ensures r.Err? ==> r.error == EnterCommand
  {
    if input == "" then Err(EnterCommand) else Ok(())
  }

  /** A command check that also refuses text made only of whitespace. */
  function ValidateCommandWords(input: string): (r: Result<(), string>)
    ensures r.Ok? <==> Words(input) != []
    ensures r.Err? ==> r.error == EnterCommand
  {
    if Words(input) == [] then Err(EnterCommand) else Ok(())
  }

  /** The URI check as written: not empty, and starting with the four letters `http`. */
  function ValidateUri(input: string): (r: Result<(), string>)
    ensures r.Ok? <==> input != "" && StartsWith(input, "http")
    ensures r.Err? ==> r.error == (if input == "" then EnterUri else UriScheme)
  {
    if input == "" then Err(EnterUri)
    else if !StartsWith(input, "http") then Err(UriScheme)
    else Ok(())
  }

  /** The URI check its error message describes: the URI starts with `http://` or `https://`. */
  function ValidateUriScheme(input: string): (r: Result<(), string>)
    ensures r.Ok? <==> StartsWith(input, "http://") || StartsWith(input, "https://")
    ensures r.Err? ==> r.error == (if input == "" then EnterUri else UriScheme)
  {
    if input == "" then Err(EnterUri)
    else if !StartsWith(input, "http://") && !StartsWith(input, "https://") then Err(UriScheme)
    else Ok(())
  }

  /** The timeout check: the text parses as a `u64`. */
  function ValidateTimeout(input: string): (r: Result<nat, string>)
    ensures r.Ok? <==> ParseU64(input).Some?
    ensures r.Ok? ==> r.value < U64Limit && r.value == ParseU64(input).value
    ensures r.Err? ==> r.error == InvalidTimeout
  {
    match ParseU64(input)
    case Some(t) => Ok(t)
    case None => Err(InvalidTimeout)
  }

  /**
   * `http` followed by anything passes the written URI check although it is
   * no `http://` or `https://` URI; the corrected check refuses it.
   */
  lemma UriCheckAcceptsOtherSchemes()
    ensures ValidateUri("httpfoo") == Ok(())
    ensures ValidateUriScheme("httpfoo") == Err(UriScheme)
  {
    assert "httpfoo"[..4] == "http";
    assert "httpfoo"[4] == 'f';
  }

  /** Every URI the corrected check accepts passes the written check too. */
  lemma UriSchemeNarrowsUri(input: string)
    ensures ValidateUriScheme(input).Ok? ==> ValidateUri(input).Ok?
  {
    if StartsWith(input, "http://") {
      assert input[..4] == input[..7][..4];
    } else if StartsWith(input, "https://") {
      assert input[..4] == input[..8][..4];
    }
  }

  /** Every default timeout text is accepted and read back. */
  lemma DefaultTimeoutAccepted()
    ensures ValidateTimeout(DecimalString(DefaultExtensionTimeout)) == Ok(DefaultExtensionTimeout)
  {
    ParseU64Decimal(DefaultExtensionTimeout);
  }

  /** The command text split into the command (its first word, or empty) and its arguments. */
  function SplitCommand(text: string): (r: (string, seq<string>))
    ensures Words(text) != [] ==> [r.0] + r.1 == Words(text)
    ensures Words(text) == [] ==> r == ("", [])
  {
    var ws := Words(text);
    if ws == [] then ("", []) else (ws[0], ws[1..])
  }

  /** Space-separated words split back into the first word and the rest. */
  lemma SplitCommandJoin(ws: seq<string>)
    requires |ws| >= 1
    requires forall i | 0 <= i < |ws| :: IsWord(ws[i])
    ensures SplitCommand(JoinWith(ws, " ")) == (ws[0], ws[1..])
  {
    WordsOfJoin(ws);
  }

  /**
   * Text made only of whitespace passes the written command check and
   * yields an empty command; the corrected check refuses it, and every text
   * it accepts yields a non-empty command.
   */
  lemma BlankCommandAccepted()
    ensures ValidateCommand(" ") == Ok(())
    ensures SplitCommand(" ") == ("", [])
    ensures ValidateCommandWords(" ") == Err(EnterCommand)
  {
    assert IsWhitespace(" "[0]);
    assert Words(" ") == Words(" "[1..]);
  }

  /** The command comes out empty exactly when the text is all whitespace. */
  lemma BlankCommandIsWhitespace(input: string)
    ensures SplitCommand(input).0 == "" <==> forall i | 0 <= i < |input| :: IsWhitespace(input[i])
  {
    WordsEmpty(input);
  }

  lemma CommandWordsNonEmpty(input: string)
    requires ValidateCommandWords(input).Ok?
    ensures ValidateCommand(input).Ok?
    ensures IsWord(SplitCommand(input).0)
  {
  }

  /**
   * The environment-variable loop of the stdio and SSE dialogs: when the
   * user asks to add variables, each entered pair is inserted in turn (a
   * repeated key keeps its last value) until they decline to add another.
   */
  method CollectEnvs(addEnv: bool, entered: seq<(string, string)>) returns (envs: map<string, string>)
    requires addEnv ==> entered != []
    ensures envs == if addEnv then InsertAll(entered) else map[]
  {
    envs := map[];
    if addEnv {
      var i := 0;
      while i < |entered|
        invariant 0 <= i <= |entered|
        invariant envs == InsertAll(entered[..i])
      {
        InsertAllSnoc(entered[..i], entered[i]);
        assert entered[..i + 1] == entered[..i] + [entered[i]];
        envs := envs[entered[i].0 := entered[i].1];
        i := i + 1;
      }
      assert entered[..i] == entered;
    }
  }

  /** The builtin extensions the dialog offers. */
  const BuiltinExtensionNames: seq<string> :=
    ["developer", "computercontroller", "google_drive", "memory", "tutorial", "jetbrains"]

  /** The entry every new extension gets: enabled, with the chosen timeout. */
  function Enabled(config: ExtensionConfig): ExtensionEntry {
    ExtensionEntry(true, config)
  }

  /**
   * The end of the first-run setup: when the provider was configured and
   * works, the developer builtin is enabled with the default timeout;
   * otherwise the whole configuration is cleared.
   */
  method FinishFirstRun(config: Config, provider: Result<bool, string>)
    requires config.Valid()
    modifies config
    ensures config.Valid()
    ensures provider == Ok(true) ==>
      && config.extensions == old(config.extensions)["developer" := Enabled(Builtin("developer", Some(DefaultExtensionTimeout)))]
      && config.values == old(config.values) && config.experiments == old(config.experiments)
    ensures provider != Ok(true) ==>
      config.values == map[] && config.extensions == map[] && config.experiments == map[]
  {
    if provider == Ok(true) {
      config.SetExtension(Enabled(Builtin("developer", Some(DefaultExtensionTimeout))));
    } else {
      config.Clear();
    }
  }

  /**
   * `toggle_extensions_dialog`: with no extensions nothing is asked;
   * otherwise every configured extension is enabled exactly when the user
   * selected it, and nothing else changes.
   */
  method ToggleExtensionsDialog(config: Config, selected: seq<string>) returns (asked: bool)
    requires config.Valid()
    modifies config
    ensures config.Valid()
    ensures asked <==> old(config.extensions) != map[]
    ensures config.extensions == map k | k in old(config.extensions) ::
      old(config.extensions)[k].(enabled := k in selected)
    ensures config.values == old(config.values) && config.experiments == old(config.experiments)
  {
    if config.extensions == map[] {
      return false;
    }
    var remaining := config.extensions.Keys;
    while remaining != {}
      invariant config.Valid()
      invariant remaining <= config.extensions.Keys == old(config.extensions).Keys
      invariant forall k | k in config.extensions ::
        config.extensions[k] == if k in remaining then old(config.extensions)[k]
                                else old(config.extensions)[k].(enabled := k in selected)
      invariant config.values == old(config.values) && config.experiments == old(config.experiments)
      decreases |remaining|
    {
      var name :| name in remaining;
      config.SetExtensionEnabled(name, name in selected);
      remaining := remaining - {name};
    }
    asked := true;
  }

  /** The names the removal dialog offers: those of the disabled extensions. */
  function DisabledNames(extensions: map<string, ExtensionEntry>): set<string> {
    set k | k in extensions && !extensions[k].enabled
  }

  datatype RemoveOutcome = NothingConfigured | AllEnabled | Removed(names: seq<string>)

  /**
   * `remove_extension_dialog`: with no extensions, or with all of them
   * enabled, nothing is offered and nothing changes; otherwise every chosen
   * name is removed. Choosing among the offered names never removes an
   * enabled extension.
   */
  method RemoveExtensionDialog(config: Config, chosen: seq<string>) returns (outcome: RemoveOutcome)
    requires config.Valid()
    modifies config
    ensures config.Valid()
    ensures old(config.extensions) == map[] ==> outcome == NothingConfigured && unchanged(config)
    ensures old(config.extensions) != map[] && DisabledNames(old(config.extensions)) == {} ==>
      outcome == AllEnabled && unchanged(config)
    ensures DisabledNames(old(config.extensions)) != {} ==>
      && outcome == Removed(chosen)
      && config.extensions == old(config.extensions) - (set n | n in chosen)
    ensures (forall n | n in chosen :: n in DisabledNames(old(config.extensions))) ==>
      forall k | k in old(config.extensions) && old(config.extensions)[k].enabled ::
        k in config.extensions && config.extensions[k] == old(config.extensions)[k]
    ensures config.values == old(config.values) && config.experiments == old(config.experiments)
  {
    if config.extensions == map[] {
      return NothingConfigured;
    }
    if DisabledNames(config.extensions) == {} {
      return AllEnabled;
    }
    var i := 0;
    while i < |chosen|
      invariant 0 <= i <= |chosen|
      invariant config.Valid()
      invariant config.extensions == old(config.extensions) - (set n | n in chosen[..i])
      invariant config.values == old(config.values) && config.experiments == old(config.experiments)
    {
      ghost var upTo := chosen[..i + 1];
      assert (set n | n in upTo) == (set n | n in chosen[..i]) + {chosen[i]} by {
        assert upTo == chosen[..i] + [chosen[i]];
      }
      config.RemoveExtension(chosen[i]);
      i := i + 1;
    }
    assert chosen[..i] == chosen;
    outcome := Removed(chosen);
  }

  /**
   * `toggle_experiments_dialog`: with no experiments nothing is asked;
   * otherwise every experiment is enabled exactly when the user selected it.
   */
  method ToggleExperimentsDialog(config: Config, selected: seq<string>) returns (asked: bool)
    modifies config
    ensures asked <==> old(config.experiments) != map[]
    ensures config.experiments == map k | k in old(config.experiments) :: k in selected
    ensures config.values == old(config.values) && config.extensions == old(config.extensions)
  {
    if config.experiments == map[] {
      return false;
    }
    var remaining := config.experiments.Keys;
    while remaining != {}
      invariant remaining <= config.experiments.Keys == old(config.experiments).Keys
      invariant forall k | k in config.experiments ::
        config.experiments[k] == if k in remaining then old(config.experiments)[k] else k in selected
      invariant config.values == old(config.values) && config.extensions == old(config.extensions)
      decreases |remaining|
    {
      var name :| name in remaining;
      config.SetExperimentEnabled(name, name in selected);
      remaining := remaining - {name};
    }
    asked := true;
  }

  /** `configure_goose_mode_dialog`: the chosen mode's name is stored under `GOOSE_MODE`. */
  method ConfigureGooseModeDialog(config: Config, mode: GooseMode)
    modifies config
    ensures config.values == old(config.values)["GOOSE_MODE" := Str(ModeName(mode))]
    ensures config.extensions == old(config.extensions) && config.experiments == old(config.experiments)
  {
    config.Set("GOOSE_MODE", Str(ModeName(mode)));
  }

  datatype ToolOutput = High | Medium | All

  /** The minimum priority of tool output shown, stored under `GOOSE_CLI_MIN_PRIORITY`. */
  function MinPriority(level: ToolOutput): (p: real)
    ensures 0.0 <= p < 1.0
    ensures level == All <==> p == 0.0
  {
    match level
    case High => 0.8
    case Medium => 0.2
    case All => 0.0
  }

  /** `configure_tool_output_dialog` */
  method ConfigureToolOutputDialog(config: Config, level: ToolOutput)
    modifies config
    ensures config.values == old(config.values)["GOOSE_CLI_MIN_PRIORITY" := Num(MinPriority(level))]
    ensures config.extensions == old(config.extensions) && config.experiments == old(config.experiments)
  {
    config.Set("GOOSE_CLI_MIN_PRIORITY", Num(MinPriority(level)));
  }

  /** The built-in branch of `configure_extensions_dialog`. */
  method AddBuiltinExtensionDialog(config: Config, extension: string, timeoutText: string)
    requires config.Valid()
    requires extension in BuiltinExtensionNames
    requires ValidateTimeout(timeoutText).Ok?
    modifies config
    ensures config.Valid()
    ensures config.extensions == old(config.extensions)[extension :=
      Enabled(Builtin(extension, Some(ParseU64(timeoutText).value)))]
    ensures config.values == old(config.values) && config.experiments == old(config.experiments)
  {
    var timeout := ValidateTimeout(timeoutText).value;
    config.SetExtension(Enabled(Builtin(extension, Some(timeout))));
  }

  /**
   * The stdio branch of `configure_extensions_dialog`: a new, enabled
   * command-line extension under a fresh name, with the command text split
   * into a command and its arguments. The command check as written lets
   * text made only of whitespace through, and such text is stored with an
   * empty command.
   */
  method AddStdioExtensionDialog(config: Config, name: string, commandText: string, timeoutText: string,
                                 addEnv: bool, entered: seq<(string, string)>)
    requires config.Valid()
    requires ValidateName(name, config.extensions.Keys).Ok?
    requires ValidateCommand(commandText).Ok?
    requires ValidateTimeout(timeoutText).Ok?
    requires addEnv ==> entered != []
    modifies config
    ensures config.Valid()
    ensures name !in old(config.extensions)
    ensures config.extensions.Keys == old(config.extensions).Keys + {name}
    ensures var (cmd, args) := SplitCommand(commandText);
      config.extensions == old(config.extensions)[name := Enabled(Stdio(name, cmd, args,
        if addEnv then InsertAll(entered) else map[], Some(ParseU64(timeoutText).value)))]
    ensures config.extensions[name].config.cmd == "" <==>
      forall i | 0 <= i < |commandText| :: IsWhitespace(commandText[i])
    ensures ValidateCommandWords(commandText).Ok? ==> config.extensions[name].config.cmd != ""
    ensures config.values == old(config.values) && config.experiments == old(config.experiments)
  {
    var timeout := ValidateTimeout(timeoutText).value;
    var (cmd, args) := SplitCommand(commandText);
    BlankCommandIsWhitespace(commandText);
    var envs := CollectEnvs(addEnv, entered);
    config.SetExtension(Enabled(Stdio(name, cmd, args, envs, Some(timeout))));
  }

  /**
   * The SSE branch of `configure_extensions_dialog`: a new, enabled remote
   * extension under a fresh name, with the URI as entered (any text starting
   * with `http` passes the check as written).
   */
  method AddSseExtensionDialog(config: Config, name: string, uri: string, timeoutText: string,
                               addEnv: bool, entered: seq<(string, string)>)
    requires config.Valid()
    requires ValidateName(name, config.extensions.Keys).Ok?
    requires ValidateUri(uri).Ok?
    requires ValidateTimeout(timeoutText).Ok?
    requires addEnv ==> entered != []
    modifies config
    ensures config.Valid()
    ensures name !in old(config.extensions)
    ensures config.extensions.Keys == old(config.extensions).Keys + {name}
    ensures config.extensions == old(config.extensions)[name := Enabled(Sse(name, uri,
      if addEnv then InsertAll(entered) else map[], Some(ParseU64(timeoutText).value)))]
    ensures config.values == old(config.values) && config.experiments == old(config.experiments)
  {
    var timeout := ValidateTimeout(timeoutText).value;
    var envs := CollectEnvs(addEnv, entered);
    config.SetExtension(Enabled(Sse(name, uri, envs, Some(timeout))));
  }
}
