# goose CLI session controller and configure dialogs, in Dafny

This project models the core of the goose command-line client: the
interactive session controller (`crates/goose-cli/src/session/mod.rs`) and the
bookkeeping of the `goose configure` dialogs
(`crates/goose-cli/src/commands/configure.rs`).

On the session side it models these behaviours:

- Interrupt recovery, which repairs the transcript after a stream error or Ctrl-C.
- The step the reply loop takes for each stream item: confirmation
  requests are answered, everything else is appended and persisted.
- The `/extension` and `/builtin` commands: how their text is parsed and
  which configurations the agent is asked to start.
- The prompt commands: listing prompts, looking up prompt information, and
  the User/Assistant role check with its rollback.
- The completion cache: rebuilding it and invalidating it.
- The `/mode` check and the theme cycle.

On the configure side it models these behaviours:

- The name, command, URI and timeout validators.
- The split of a command line into a command and its arguments.
- The environment-variable loop.
- The toggle, remove, experiments, goose-mode and tool-output dialogs.
- The three branches that add an extension.
- The developer builtin that the first-run setup enables.

Nothing here performs I/O:

- Every answer the user gives at a prompt is an argument.
- Every answer the agent gives is an argument: whether it started an
  extension, the items of the reply stream, the prompt list and the fetched
  prompt.
- Every write of the session file becomes a snapshot in a ghost log `saved`.
- The agent's `handle_confirmation` calls are recorded in `confirmations`.
- Its `add_extension` calls are recorded in `started`.
- The persisted configuration is the class `ConfigStore.Config`, holding
  three maps:
  - `values`, the configuration keys such as `GOOSE_MODE`;
  - `extensions`, the `ExtensionManager` entries;
  - `experiments`, the `ExperimentManager` flags.
- A `HashMap` that the source iterates over is a map together with an
  explicit iteration order (`Prompts.IsEnumeration`).

Modules:

- `Wrappers`: `Option` and `Result`.
- `Text`: the Rust string operations the source relies on, modelled on `seq<char>`:
  - `split_whitespace`, `split(',')`, `split_once`, `trim` and `starts_with`;
  - `parse::<u64>`;
  - ASCII lower-casing.
- `Messages`: messages, their contents, and the tool requests an assistant message carries.
- `Recovery`: `handle_interrupted_messages` as a pure function of the transcript, with its lemmas.
- `Events`: one step of `process_agent_response`, and the run of the loop over a sequence of events.
- `SessionCommands`: parsing the `/extension` and `/builtin` arguments.
- `Prompts`: `list_prompts`, `get_prompt_info`, the role check, and the contents of the completion cache.
- `Modes`: the theme cycle, and the goose mode with its check.
- `Extensions`: extension configurations and entries.
- `ConfigStore`: the persisted configuration, as a class.
- `Controller`: the `Session` class and its `CompletionCache`.
- `Configure`: the dialogs and validators.

Where the source changes state in place, the model is a class whose methods
state their effect on the fields:

- the session's `messages`;
- the two maps of the cache;
- the configuration store.

Each such method is proved against a pure specification function, and the
properties are lemmas about that function:

| method | specified by |
|---|---|
| `HandleInterruptedMessages` | `Recovery.Recover` |
| `HandleEvent` | `Events.Step` |
| `ProcessAgentResponse` | `Events.Run` |
| `Refresh` | `Prompts.PromptIndex` and `Prompts.InfoIndex` |
| `AddExtension` | `SessionCommands.ParseExtensionCommand` |
| `AddBuiltin` | `Controller.BuiltinRequests` |

## Model

| member | source | states |
|---|---|---|
| Recovery.Recover | crates/goose-cli/src/session/mod.rs:508-596 | Specification function of `handle_interrupted_messages`: the transcript and snapshots for each shape of the transcript's tail. Its properties are the `Recover*` lemmas below. |
| Recovery.RecoverOutstandingRequests | crates/goose-cli/src/session/mod.rs:510-561 | If the last message is the assistant's and holds k ≥ 1 tool requests, exactly two messages are appended and the earlier ones are untouched. The first is a User message of k tool responses. They carry the request ids in request order. Each is an execution error whose text is exactly `InterruptedByUser` ("Interrupted by the user to make a correction") when `interrupt` holds, and `UncaughtError` ("An uncaught error happened during tool use") otherwise. The second is the assistant note naming the last tool. Two snapshots are persisted: the transcript after the first append, then the transcript after the second. |
| Recovery.InterruptNoteNamesLastCall | crates/goose-cli/src/session/mod.rs:531-534 | The note names the tool of the last `ToolRequest` item of the interrupted message, or "tool" when that call did not parse. |
| Recovery.RecoverAnsweredTool | crates/goose-cli/src/session/mod.rs:564-579 | If the last message is the user's and starts with a tool response, exactly one assistant note ("The tool calling loop was interrupted…") is appended, the earlier messages are unchanged, and one snapshot is persisted. |
| Recovery.RecoverUnansweredUser | crates/goose-cli/src/session/mod.rs:581-588 | If the last message is the user's and starts with anything else, exactly that message is removed and nothing is persisted. |
| Recovery.RecoverPanicsOnlyOnEmptyUser | crates/goose-cli/src/session/mod.rs:564-593 | Recovery panics if and only if the last message is the user's and has no content. |
| Recovery.RecoverSettled | crates/goose-cli/src/session/mod.rs:527-595 | With an empty transcript, or a last assistant message without tool requests, nothing changes and nothing is persisted. |
| Recovery.RecoverOutcomes | crates/goose-cli/src/session/mod.rs:508-596 | Recovery either grows the transcript by two, grows it by one, drops its last message, or leaves it alone. Every snapshot extends the original transcript, and the last snapshot is the final transcript. |
| Recovery.RecoverSettles | crates/goose-cli/src/session/mod.rs:527-580 | After the two appending kinds of recovery nothing is outstanding, so a second recovery changes nothing. |
| Recovery.RecoverAddsNoConfirmation | crates/goose-cli/src/session/mod.rs:508-596 | Recovery adds no message that asks for a tool confirmation. |
| Recovery.InterruptResponsesAt | crates/goose-cli/src/session/mod.rs:541-546 | The synthetic responses match the requests one to one and in order, each an execution error carrying the notification. |
| Controller.ResponsesFor | crates/goose-cli/src/session/mod.rs:541-546 | The loop that builds the responses produces exactly `InterruptResponses` of the requests. |
| Controller.Session.constructor | crates/goose-cli/src/session/mod.rs:60-76 | A new session starts from the history read from the session file, or from no messages when reading fails. Nothing is persisted, confirmed or started yet, and the completion cache is fresh and empty. |
| Controller.Session.HandleInterruptedMessages | crates/goose-cli/src/session/mod.rs:508-596 | The new transcript and snapshot log are those `Recover` prescribes. On a panic the result is true and the state is left alone. Confirmations and started extensions are unchanged. |
| Events.Step | crates/goose-cli/src/session/mod.rs:453-503 | Specification function of one turn of the stream loop. Its properties are the `Step*` lemmas below. |
| Events.Run | crates/goose-cli/src/session/mod.rs:451-506 | Specification function of the whole loop: steps until a turn leaves it. Its properties are `RunAppendsReplies` and `RunAddsNoConfirmation`. |
| Events.StepConfirmation | crates/goose-cli/src/session/mod.rs:457-466 | A stream item whose first content is a confirmation request is answered with the user's decision under its id, and is neither appended nor persisted. |
| Events.StepRecordsReply | crates/goose-cli/src/session/mod.rs:468-477 | Any other item is appended at the end, the new transcript is persisted, and the loop goes on. |
| Events.StepRecovers | crates/goose-cli/src/session/mod.rs:479-502 | A stream error recovers with `interrupt = false`, Ctrl-C with `interrupt = true`, and both leave the loop. A panic in recovery is fatal and leaves the state alone. |
| Events.RunAppendsReplies | crates/goose-cli/src/session/mod.rs:451-504 | A run without errors or interrupts only appends: every non-confirmation reply, in arrival order, until the stream ends. One snapshot is persisted per appended message, each being the transcript just after that append. |
| Events.RunAddsNoConfirmation | crates/goose-cli/src/session/mod.rs:451-504 | Whatever arrives, no message the loop adds asks for a confirmation. |
| Events.HelloScenario | crates/goose-cli/src/session/mod.rs:200-210 | A user line followed by one plain answer ends with exactly those two messages, persisted after each. |
| Events.CancelDuringToolCall | crates/goose-cli/src/session/mod.rs:496-502 | Ctrl-C while tool calls are outstanding adds one user-interrupt response per request and a note, then stops. |
| Controller.Session.HandleEvent | crates/goose-cli/src/session/mod.rs:453-503 | One turn of the loop changes the state exactly as `Step` does; started extensions are unchanged. |
| Controller.Session.ProcessAgentResponse | crates/goose-cli/src/session/mod.rs:451-506 | The loop's final state and flow are those of `Run` over the arrivals. |
| Controller.Session.ProcessMessage | crates/goose-cli/src/session/mod.rs:200-210 | The user's text is appended and persisted, then the reply loop runs from that state. |
| SessionCommands.EnvPrefixLength | crates/goose-cli/src/session/mod.rs:88-95 | The assignment prefix is maximal: every word before it contains `=`, and the next word, if any, does not. |
| SessionCommands.EnvPairs | crates/goose-cli/src/session/mod.rs:92-93 | Each assignment is cut at its first `=`: the key has no `=`, and key, `=` and value give back the word. |
| SessionCommands.ParseExtensionCommandShape | crates/goose-cli/src/session/mod.rs:84-101 | The command is missing (error "No command provided in extension string") exactly when every word is an assignment. Otherwise the words before the command are assignments, the command is the first word without `=`, the arguments are the words after it in order, and the environment is those assignments inserted in order. |
| SessionCommands.ExtensionCommandRoundTrip | crates/goose-cli/src/session/mod.rs:84-112 | Writing out assignments, a command and arguments as words and parsing the result gives back the same environment (a later duplicate key wins), command and arguments. |
| SessionCommands.ParseExtensionCommand | crates/goose-cli/src/session/mod.rs:84-101 | Specification function of the command parse in `add_extension`. Its properties are `ParseExtensionCommandShape` and `ExtensionCommandRoundTrip`. |
| Controller.ReadExtensionCommand | crates/goose-cli/src/session/mod.rs:84-101 | The `while let` loop that pops assignment words computes exactly `ParseExtensionCommand`. |
| Controller.Session.AddExtension | crates/goose-cli/src/session/mod.rs:83-127 | A parse error is returned with nothing started. Otherwise one stdio configuration (parsed command, arguments, environment, default timeout) is sent to the agent. The cache is cleared only when the agent accepts. A refusal is reported as "Failed to start extension: " followed by the agent's error. |
| SessionCommands.BuiltinConfigs | crates/goose-cli/src/session/mod.rs:134-139 | Specification function of the configs `add_builtin` builds. Its properties are `BuiltinConfigsShape` and `BuiltinConfigsRoundTrip`. |
| SessionCommands.BuiltinConfigsShape | crates/goose-cli/src/session/mod.rs:134-139 | There is one builtin per comma-separated piece, in order. The i-th has the default timeout, and its name is the i-th piece with exactly its leading and trailing whitespace cut (`IsTrimOf`), so the name holds no comma. |
| SessionCommands.BuiltinConfigsRoundTrip | crates/goose-cli/src/session/mod.rs:134-139 | Joining trimmed, comma-free names with commas and reading them back gives the same builtins, in order. |
| SessionCommands.FirstFailure | crates/goose-cli/src/session/mod.rs:140-143 | Gives the position of the first refusal: every earlier start succeeded. |
| Controller.BuiltinRequests | crates/goose-cli/src/session/mod.rs:133-150 | Every builtin is requested up to and including the first refused one. Success is reported only when none was refused. |
| Controller.StartBuiltins | crates/goose-cli/src/session/mod.rs:134-144 | The `for` loop with its early `?` return requests and reports exactly `BuiltinRequests`. |
| Controller.Session.AddBuiltin | crates/goose-cli/src/session/mod.rs:133-150 | `started` grows by the requested builtins. The cache is cleared only on success. |
| Prompts.ListPrompts | crates/goose-cli/src/session/mod.rs:152-174 | Fails exactly when the filter names an unknown extension. Otherwise the keys are all extensions (no filter) or exactly the filtered one, each mapped to its prompts' names in order. |
| Prompts.FindPromptInfo | crates/goose-cli/src/session/mod.rs:176-192 | `None` exactly when no extension offers the name. Otherwise the result describes a prompt of that name, together with an extension that owns it. |
| Prompts.FindPromptInfoFirstOwner | crates/goose-cli/src/session/mod.rs:180-189 | The reported owner is the first extension in iteration order that offers the name, and the prompt is that extension's first one with the name. |
| Controller.Session.InjectPromptMessages | crates/goose-cli/src/session/mod.rs:374-400 | The messages are kept exactly when they alternate User, Assistant, … starting with User. Then the transcript is the old one plus the messages in order; otherwise it is exactly the old one. Nothing is persisted. |
| Controller.Session.PromptCommand | crates/goose-cli/src/session/mod.rs:351-411 | The outcome covers every branch: a missing name, `--info` (the lookup result), a fetch error, a role mismatch (state unchanged), and a valid prompt. For a valid prompt the outcome is the reply loop run after the injected messages. |
| Controller.CompletionCache.Refresh | crates/goose-cli/src/session/mod.rs:604-632 | Afterwards `prompts` maps every extension to its prompt names, whatever the old contents. `prompt_info` is the map built by visiting the extensions in iteration order. `prompts` depends only on the registry. `prompt_info` may depend on the order when two extensions offer a prompt of the same name, and does not otherwise (`Prompts.InfoIndexOrderFree`). |
| Prompts.ExpectedRole | crates/goose-cli/src/session/mod.rs:379-383 | The role required at each position of an injected prompt: User at even positions, Assistant at odd ones. `InjectPromptMessages` and `PromptCommand` are stated with it. |
| Prompts.PromptIndex | crates/goose-cli/src/session/mod.rs:613-615 | Specification function of the `prompts` map after a refresh. Its properties are `ListPromptsMatchesIndex` and `Controller.CompletionCache.Refresh`. |
| Prompts.InfoIndex | crates/goose-cli/src/session/mod.rs:613-628 | Specification function of the `prompt_info` map after visiting the extensions in a given order. Its properties are `InfoIndexEntries`, `UniquePromptOwner` and `InfoIndexOrderFree`. |
| Prompts.ListPromptsMatchesIndex | crates/goose-cli/src/session/mod.rs:166-173 | The unfiltered listing equals the cache's rebuilt `prompts` map. |
| Prompts.InfoIndexEntries | crates/goose-cli/src/session/mod.rs:613-628 | After a refresh, `prompt_info` holds exactly the listed prompt names. Each entry is the metadata of a prompt of that name, together with an extension that offers it. |
| Prompts.UniquePromptOwner | crates/goose-cli/src/session/mod.rs:613-628 | A prompt name offered by only one extension is attributed to that extension. |
| Prompts.InfoIndexOwned | crates/goose-cli/src/session/mod.rs:613-628 | When only one extension in the order offers a name, its `prompt_info` entry is the one that extension's own prompt list yields, whatever was inserted before. |
| Prompts.InfoIndexOrderFree | crates/goose-cli/src/session/mod.rs:613-628 | When no two extensions offer a prompt of the same name, any two iteration orders of the registry give the same `prompt_info`. |
| Controller.CompletionCache.Invalidate | crates/goose-cli/src/session/mod.rs:636-641 | Both maps are empty afterwards, whatever they held, so invalidating twice is the same as invalidating once. |
| Modes.NextTheme | crates/goose-cli/src/session/mod.rs:303-318 | Toggling always changes the theme. |
| Modes.ThemeCycle | crates/goose-cli/src/session/mod.rs:303-318 | Three toggles return to the starting theme; two do not (Light, Dark, Ansi, Light). |
| Modes.ParseMode | crates/goose-cli/src/session/mod.rs:334-343 | A mode is accepted exactly when its lower-cased text is `auto`, `approve` or `chat`. The accepted mode's name is that lower-cased text. |
| Modes.ParseModeName | crates/goose-cli/src/session/mod.rs:334-343 | Every mode's own name is accepted as that mode, and case does not matter. |
| Controller.ModeCommand | crates/goose-cli/src/session/mod.rs:330-349 | An invalid mode is refused with an error naming its lower-cased text, and nothing is stored. A valid one is stored lower-cased under `GOOSE_MODE`, and nothing else changes. |
| Configure.ValidateName | crates/goose-cli/src/commands/configure.rs:463-471 | Accepts exactly the non-empty names no configured extension has, with the source's two error texts. The same check appears at configure.rs:537-545. |
| Configure.ValidateCommand | crates/goose-cli/src/commands/configure.rs:476-483 | As written: refuses only the empty string. |
| Configure.ValidateCommandWords | crates/goose-cli/src/commands/configure.rs:476-483 | Corrected: refuses text with no word in it. |
| Configure.ValidateUri | crates/goose-cli/src/commands/configure.rs:550-558 | As written: refuses the empty string and anything not starting with `http`, and accepts everything else. |
| Configure.ValidateUriScheme | crates/goose-cli/src/commands/configure.rs:550-558 | Corrected: accepts exactly what starts with `http://` or `https://`. |
| Configure.UriCheckAcceptsOtherSchemes | crates/goose-cli/src/commands/configure.rs:553-554 | "httpfoo" passes the written check while its error message says it should not; the corrected check refuses it. |
| Configure.UriSchemeNarrowsUri | crates/goose-cli/src/commands/configure.rs:550-558 | Everything the corrected URI check accepts also passes the written one. |
| Configure.ValidateTimeout | crates/goose-cli/src/commands/configure.rs:443-446 | Accepts exactly the text that parses as a `u64`, with that value (below 2^64). Otherwise the error is "Please enter a valide timeout". The same check appears at configure.rs:487-490 and 563-566. |
| Text.ParseU64 | crates/goose-cli/src/commands/configure.rs:487-490 | Whatever `parse::<u64>` accepts is an optional `+` and then at least one decimal digit, with a value below 2^64. |
| Text.ParseU64Decimal | crates/goose-cli/src/commands/configure.rs:487-490 | Every value below 2^64 is read back from its decimal spelling, with or without `+`, and 2^64 is refused. |
| Configure.DefaultTimeoutAccepted | crates/goose-cli/src/commands/configure.rs:485-491 | Example: the placeholder timeout, the default written in decimal, passes and reads back as the default. |
| Configure.SplitCommand | crates/goose-cli/src/commands/configure.rs:494-496 | The command is the first whitespace-separated word, or "" when there is none. The arguments are the remaining words, and command plus arguments is the word sequence. |
| Configure.SplitCommandJoin | crates/goose-cli/src/commands/configure.rs:494-496 | Words joined with single spaces split back into the first word and the rest. |
| Configure.BlankCommandIsWhitespace | crates/goose-cli/src/commands/configure.rs:494-496 | The command taken from a command line (its first word, or `""`) is empty exactly when the line is all whitespace. |
| Configure.BlankCommandAccepted | crates/goose-cli/src/commands/configure.rs:476-496 | " " passes the written command check and gives the empty command; the corrected check refuses it. |
| Configure.CommandWordsNonEmpty | crates/goose-cli/src/commands/configure.rs:476-496 | Text the corrected check accepts also passes the written one, and gives a non-empty command word. |
| Configure.CollectEnvs | crates/goose-cli/src/commands/configure.rs:501-518 | Without variables the map is empty. Otherwise every entered pair is inserted in turn, so a later entry with the same key overwrites an earlier one. The loop at configure.rs:572-589 is the same. |
| Extensions.InsertAllLastWins | crates/goose-cli/src/commands/configure.rs:501-518 | The keys are exactly the entered keys, and each holds the value of the last pair that carries it. |
| Configure.FinishFirstRun | crates/goose-cli/src/commands/configure.rs:28-58 | When the provider was configured, the developer builtin is enabled with the default timeout and nothing else changes. Otherwise the whole configuration is cleared. |
| Configure.ToggleExtensionsDialog | crates/goose-cli/src/commands/configure.rs:343-387 | With no extension nothing is asked. Otherwise every configured extension is enabled exactly when selected; the names and configurations are unchanged. |
| Configure.RemoveExtensionDialog | crates/goose-cli/src/commands/configure.rs:609-650 | With no extension, or with all of them enabled, nothing is offered and nothing changes. Otherwise exactly the chosen names are removed. Choosing among the offered (disabled) names leaves every enabled extension in place. |
| Configure.ToggleExperimentsDialog | crates/goose-cli/src/commands/configure.rs:760-796 | With no experiment nothing is asked. Otherwise every experiment is enabled exactly when selected. |
| Configure.ConfigureGooseModeDialog | crates/goose-cli/src/commands/configure.rs:683-725 | `GOOSE_MODE` holds exactly the chosen mode's name; nothing else changes. |
| Configure.MinPriority | crates/goose-cli/src/commands/configure.rs:739-753 | The stored threshold lies in [0, 1), and it is 0 exactly for "all". |
| Configure.ConfigureToolOutputDialog | crates/goose-cli/src/commands/configure.rs:727-756 | `GOOSE_CLI_MIN_PRIORITY` holds the chosen level's threshold; nothing else changes. |
| Configure.AddBuiltinExtensionDialog | crates/goose-cli/src/commands/configure.rs:410-457 | The chosen builtin is stored enabled, with the entered timeout. |
| Configure.AddStdioExtensionDialog | crates/goose-cli/src/commands/configure.rs:459-531 | For a command line the written check accepts, one new entry is added under the fresh name, enabled. It holds the split command, the environment as entered, and the timeout. The stored command is empty exactly when the line is all whitespace, and is never empty when the corrected check also accepts the line. Nothing else changes. |
| Configure.AddSseExtensionDialog | crates/goose-cli/src/commands/configure.rs:532-602 | For a URI the written check accepts (any text starting with `http`), one new entry is added under the fresh name, enabled. It holds the URI, the environment as entered, and the timeout. Nothing else changes. |
| Text.TrimShape | crates/goose-cli/src/session/mod.rs:136 | `trim` removes exactly the leading and trailing whitespace: what is cut is whitespace, and the result neither starts nor ends with it. |
| Text.TrimIdempotent | crates/goose-cli/src/session/mod.rs:136 | Trimming twice is trimming once. |
| Text.SplitOnJoin | crates/goose-cli/src/session/mod.rs:134 | `split(',')` of names joined with commas (none containing a comma) gives back the names. |
| Text.WordsOfJoin | crates/goose-cli/src/session/mod.rs:84 | `split_whitespace` of words joined with single spaces gives back the words. |

## Left out

- Terminal UI: the rustyline editor, history files, `cliclack` prompts,
  spinners, `output::render_*` and `println!`. A prompt's answer is an
  argument. A prompt with a validator re-asks until the answer passes, so
  each dialog's `requires` demands an answer its validator accepts. A
  cancelled prompt (`interact()?` failing) is not modelled.
- File I/O: `persist_messages` is a snapshot appended to the ghost log
  `saved`. Its failure (the `?` after it) is not modelled, and neither is the
  failure of `read_messages`, beyond the empty history it falls back to.
  Failures of `ExtensionManager`, `ExperimentManager` and `Config` calls are
  not modelled either, and the store is a map.
- Concurrency: the `tokio::select!` race between the stream and Ctrl-C is
  resolved by the order of the `arrivals` sequence. The agent's `reply` call
  failing before the stream starts is not modelled.
- The agent: `add_extension`, `get_prompt`, `list_extension_prompts`,
  `handle_confirmation` and their internals are inputs or recorded calls.
- The random eight-character extension name is a parameter.
- Clocks and the environment are not modelled: `Instant::now()` and the
  cache's `last_updated`, `log_usage`, and the `std::env::var` notices of
  the mode and tool-output dialogs.
- `Envs::new` is modelled as the plain map it is built from.
- `goose::config::DEFAULT_EXTENSION_TIMEOUT` is not part of this model. Its
  value is taken to be 300 (`Extensions.DefaultExtensionTimeout`).
- `configure_provider_dialog` cannot be modelled here: it talks to
  providers. Its result is the `provider` argument of `FinishFirstRun`.
  Around it, only the first-run branch of `handle_configure` is modelled,
  not the menu that picks a dialog nor the variants of its error messages.
- `configure_settings_dialog` is only the menu that picks a dialog, and is
  not modelled.
- FinishFirstRun: the source comment calls enabling the developer builtin
  best-effort, but the `?` after `ExtensionManager::set` would propagate a
  failure. Store failures are not modelled.
- ModeCommand: the `unwrap` on `config.set` (a panic when the write fails)
  is not modelled. The mode text in its error message is lower-cased with
  `ToLowerAscii`, which differs from Rust's `to_lowercase` on non-ASCII
  letters.
- ParseMode: `to_lowercase` is modelled as ASCII lower-casing. No non-ASCII
  character lower-cases into `auto`, `approve` or `chat` except the Kelvin
  sign (U+212A), which becomes `k` and appears in none of them.
- MinPriority: the `f64` thresholds 0.8, 0.2 and 0.0 are `real`s.
- Prompt argument serialisation (`serde_json::to_value`, whose failure is a
  `?`) is not modelled; the fetched prompt is an argument.
- Message conversion (`Message::from(PromptMessage)`) is not modelled; the
  fetched prompt is already a sequence of messages.

## Findings

| source | as written | input that shows it | evidently intended | confidence | as-written member | corrected member |
|---|---|---|---|---|---|---|
| crates/goose-cli/src/commands/configure.rs:550-558 | The SSE URI check only tests that the text starts with `http`. | `httpfoo` passes the check. | Accept only `http://` or `https://`, as the check's own error text says. | not executed | Configure.ValidateUri, Configure.UriCheckAcceptsOtherSchemes | Configure.ValidateUriScheme, Configure.UriSchemeNarrowsUri |
| crates/goose-cli/src/commands/configure.rs:476-496 | The stdio command check refuses only the empty string. The command is then the first whitespace-separated word, `unwrap_or("")`. | `" "` passes and stores a stdio extension whose command is empty. | Refuse a command line with no word in it, so that a command is always stored. | not executed | Configure.ValidateCommand, Configure.BlankCommandAccepted | Configure.ValidateCommandWords, Configure.CommandWordsNonEmpty |
