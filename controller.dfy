/**
 * The interactive session controller (`Session`): the transcript it keeps,
 * the snapshots it persists, the confirmation decisions it hands to the
 * agent, the extension configurations it asks the agent to start, and the
 * completion cache it shares with the line editor. Everything the agent,
 * the terminal or the clock would supply is an argument.
 */
module Controller {
  import opened Wrappers
  import opened Text
  import opened Messages
  import opened Extensions
  import opened Recovery
  import opened Events
  import opened Prompts
  import opened Modes
  import opened SessionCommands
  import opened ConfigStore

  /** The prompt data the line editor completes from (`CompletionCache`). */
  class CompletionCache {
    var prompts: map<string, seq<string>>
    var promptInfo: map<string, PromptInfo>

    constructor ()
      ensures prompts == map[] && promptInfo == map[]
    {
      prompts, promptInfo := map[], map[];
    }

    /**
     * `Session::update_completion_cache`: clear both maps, then visit the
     * extensions in the registry's iteration order, storing each one's prompt
     * names and an info record for each of its prompts.
     */
    method Refresh(registry: Registry, order: seq<string>)
      requires IsEnumeration(order, registry.Keys)
      modifies this
      ensures prompts == PromptIndex(registry)
      ensures promptInfo == InfoIndex(registry, order)
    {
      prompts := map[];
      promptInfo := map[];
      var i := 0;
      while i < |order|
        invariant 0 <= i <= |order|
        invariant prompts == PartialIndex(registry, order[..i])
        invariant promptInfo == InfoIndex(registry, order[..i])
      {
        var extension := order[i];
        var list := registry[extension];
        PartialIndexStep(registry, order, i);
        prompts := prompts[extension := Names(list)];
        ghost var before := promptInfo;
        var j := 0;
        while j < |list|
          invariant 0 <= j <= |list|
          invariant promptInfo == InsertInfos(before, extension, list[..j])
          invariant prompts == PartialIndex(registry, order[..i + 1])
        {
          InsertInfosSnoc(before, extension, list, j);
          promptInfo := promptInfo[list[j].name := InfoOf(list[j], extension)];
          j := j + 1;
        }
        assert list[..j] == list;
        i := i + 1;
      }
      assert order[..i] == order;
      PartialIndexComplete(registry, order);
    }

    /** `Session::invalidate_completion_cache`: both maps emptied. */
    method Invalidate()
      modifies this
      ensures prompts == map[] && promptInfo == map[]
    {
      prompts, promptInfo := map[], map[];
    }
  }

  /** What the `/prompt` command ended with. */
  datatype PromptOutcome =
    | NameRequired                     // no prompt name given
    | Info(found: Option<PromptInfo>)  // `--info`: the description, or not found
    | FetchFailed(error: string)       // the agent could not produce the prompt
    | RoleMismatch                     // the prompt's messages did not alternate; nothing kept
    | Answered(flow: Flow)              // the messages were added and the agent replied

  class Session {
    var messages: seq<Message>
    /** Every transcript written to the session file, oldest first. */
    ghost var saved: seq<seq<Message>>
    /** Every decision passed to the agent's `handle_confirmation`, oldest first. */
    var confirmations: seq<Confirmation>
    /** Every configuration passed to the agent's `add_extension`, oldest first. */
    var started: seq<ExtensionConfig>
    const cache: CompletionCache

    ghost function State(): View
      reads this
    {
      View(messages, saved, confirmations)
    }

    /** `Session::new`: the history read from the session file, or none when it cannot be read. */
    constructor (history: Result<seq<Message>, string>)
      ensures messages == (if history.Ok? then history.value else [])
      ensures saved == [] && confirmations == [] && started == []
      ensures fresh(cache) && cache.prompts == map[] && cache.promptInfo == map[]
    {
      messages := if history.Ok? then history.value else [];
      saved := [];
      confirmations := [];
      started := [];
      cache := new CompletionCache();
    }

    /**
     * `Session::handle_interrupted_messages`. Returns true when the process
     * would panic (the last message is the user's and has no content); the
     * state is then left as it was.
     */
    method HandleInterruptedMessages(interrupt: bool) returns (panicked: bool)
      modifies this
      ensures panicked <==> Recover(old(messages), interrupt).NoContentPanic?
      ensures match Recover(old(messages), interrupt)
        case Recovered(ms, snapshots) => messages == ms && saved == old(saved) + snapshots
        case NoContentPanic => messages == old(messages) && saved == old(saved)
      ensures confirmations == old(confirmations) && started == old(started)
    {
      panicked := false;
      var msgs := messages;
      var toolRequests: seq<PendingCall> := [];
      if |msgs| > 0 && msgs[|msgs| - 1].role == Assistant {
        toolRequests := ToolRequests(msgs[|msgs| - 1].content);
      }
      assert toolRequests == PendingRequests(msgs);
      if toolRequests != [] {
        var lastToolName := LastToolName(toolRequests);
        var responses := ResponsesFor(toolRequests, Notification(interrupt));
        var response := Message(User, responses);
        var note := AssistantText(InterruptedCallNote(lastToolName));
        assert Recover(msgs, interrupt) == Recovered(msgs + [response, note], [msgs + [response], msgs + [response, note]]);
        messages := msgs + [response, note];
        saved := saved + [msgs + [response], msgs + [response, note]];
      } else if |msgs| > 0 && msgs[|msgs| - 1].role == User {
        var last := msgs[|msgs| - 1];
        if |last.content| == 0 {
          assert Shape(msgs) == EmptyUser;
          panicked := true;
        } else if last.content[0].ToolResponse? {
          assert Shape(msgs) == AnsweredTool;
          messages := msgs + [AssistantText(ToolLoopInterrupted)];
          saved := saved + [messages];
        } else {
          assert Shape(msgs) == UnansweredUser;
          messages := msgs[..|msgs| - 1];
        }
      } else {
        assert Shape(msgs) == Settled;
      }
    }

    /** One turn of the reply loop of `Session::process_agent_response`. */
    method HandleEvent(a: Arrival) returns (flow: Flow)
      modifies this
      ensures State() == Step(old(State()), a).view
      ensures flow == Step(old(State()), a).flow
      ensures started == old(started)
    {
      match a.event {
        case Reply(m) =>
          if |m.content| > 0 && m.content[0].ToolConfirmationRequest? {
            confirmations := confirmations + [Confirmation(m.content[0].id, a.confirmed)];
          } else {
            messages := messages + [m];
            saved := saved + [messages];
          }
          flow := Continue;
        case StreamError(_) =>
          var panicked := HandleInterruptedMessages(false);
          flow := if panicked then Fatal else Stop;
        case CtrlC =>
          var panicked := HandleInterruptedMessages(true);
          flow := if panicked then Fatal else Stop;
        case StreamEnd =>
          flow := Stop;
      }
    }

    /**
     * `Session::process_agent_response`: handle the arrivals in order until
     * one of them ends the loop; the stream closes after the last of them.
     */
    method ProcessAgentResponse(arrivals: seq<Arrival>) returns (flow: Flow)
      modifies this
      ensures State() == Run(old(State()), arrivals).view
      ensures flow == Run(old(State()), arrivals).flow
      ensures started == old(started)
    {
      var i := 0;
      while i < |arrivals|
        invariant 0 <= i <= |arrivals|
        invariant Run(old(State()), arrivals) == Run(State(), arrivals[i..])
        invariant started == old(started)
      {
        ghost var before := State();
        assert arrivals[i..][0] == arrivals[i];
        assert arrivals[i..][1..] == arrivals[i + 1..];
        flow := HandleEvent(arrivals[i]);
        if flow != Continue {
          return;
        }
        i := i + 1;
      }
      flow := Stop;
    }

    /**
     * `Session::process_message` (and a typed line in `interactive`): append
     * the user's text, persist, then run the reply loop.
     */
    method ProcessMessage(text: string, arrivals: seq<Arrival>) returns (flow: Flow)
      modifies this
      ensures var pushed := old(messages) + [UserText(text)];
        var o := Run(View(pushed, old(saved) + [pushed], old(confirmations)), arrivals);
        State() == o.view && flow == o.flow
      ensures started == old(started)
    {
      messages := messages + [UserText(text)];
      saved := saved + [messages];
      flow := ProcessAgentResponse(arrivals);
    }

    /**
     * The role check of the `/prompt` command: append the prompt's messages
     * one by one, and on the first one whose role breaks the User, Assistant,
     * User, ... pattern truncate back to where the transcript started. The
     * appended messages are not persisted here.
     */
    method InjectPromptMessages(injected: seq<Message>) returns (valid: bool)
      modifies this
      ensures valid <==> Alternates(injected)
      ensures messages == if valid then old(messages) + injected else old(messages)
      ensures saved == old(saved) && confirmations == old(confirmations) && started == old(started)
    {
      var startLen := |messages|;
      valid := true;
      var i := 0;
      while i < |injected|
        invariant 0 <= i <= |injected|
        invariant messages == old(messages) + injected[..i]
        invariant forall j | 0 <= j < i :: injected[j].role == ExpectedRole(j)
        invariant saved == old(saved) && confirmations == old(confirmations) && started == old(started)
      {
        var expectedRole := if i % 2 == 0 then User else Assistant;
        if injected[i].role != expectedRole {
          valid := false;
          messages := messages[..startLen];
          return;
        }
        messages := messages + [injected[i]];
        assert injected[..i + 1] == injected[..i] + [injected[i]];
        i := i + 1;
      }
      assert injected[..i] == injected;
    }

    /**
     * The `/prompt` command. `registry` and `order` are what the agent lists,
     * `fetched` is the agent's `get_prompt` answer and `arrivals` the reply
     * stream that follows a valid prompt.
     */
    method PromptCommand(name: string, info: bool, registry: Registry, order: seq<string>,
                         fetched: Result<seq<Message>, string>, arrivals: seq<Arrival>)
      returns (outcome: PromptOutcome)
      requires IsEnumeration(order, registry.Keys)
      modifies this
      ensures name == "" ==> outcome == NameRequired && State() == old(State())
      ensures name != "" && info ==>
        outcome == Info(FindPromptInfo(registry, order, name)) && State() == old(State())
      ensures name != "" && !info && fetched.Err? ==>
        outcome == FetchFailed(fetched.error) && State() == old(State())
      ensures name != "" && !info && fetched.Ok? && !Alternates(fetched.value) ==>
        outcome == RoleMismatch && State() == old(State())
      ensures name != "" && !info && fetched.Ok? && Alternates(fetched.value) ==>
        var o := Run(old(State()).(messages := old(messages) + fetched.value), arrivals);
        outcome == Answered(o.flow) && State() == o.view
      ensures started == old(started)
    {
      if name == "" {
        return NameRequired;
      }
      if info {
        return Info(FindPromptInfo(registry, order, name));
      }
      match fetched {
        case Err(e) =>
          outcome := FetchFailed(e);
        case Ok(injected) =>
          var valid := InjectPromptMessages(injected);
          if valid {
            var flow := ProcessAgentResponse(arrivals);
            outcome := Answered(flow);
          } else {
            outcome := RoleMismatch;
          }
      }
    }

    /**
     * `Session::add_extension`: parse the command, ask the agent to start a
     * stdio extension under the generated `name`, and clear the completion
     * cache only if the agent accepted it.
     */
    method AddExtension(command: string, name: string, agentAnswer: Result<(), string>)
      returns (r: Result<(), string>)
      modifies this, cache
      ensures State() == old(State())
      ensures match ParseExtensionCommand(command)
        case Err(e) =>
          r == Err(e) && started == old(started) && unchanged(cache)
        case Ok(c) =>
          && started == old(started) + [Stdio(name, c.cmd, c.args, c.envs, Some(DefaultExtensionTimeout))]
          && (agentAnswer.Ok? ==> r == Ok(()) && cache.prompts == map[] && cache.promptInfo == map[])
          && (agentAnswer.Err? ==> r == Err(FailedExtension + agentAnswer.error) && unchanged(cache))
    {
      var parsed := ReadExtensionCommand(command);
      if parsed.Err? {
        return Err(parsed.error);
      }
      var StdioCommand(envs, cmd, args) := parsed.value;
      var config := Stdio(name, cmd, args, envs, Some(DefaultExtensionTimeout));
      started := started + [config];
      if agentAnswer.Err? {
        return Err(FailedExtension + agentAnswer.error);
      }
      cache.Invalidate();
      r := Ok(());
    }

    /**
     * `Session::add_builtin`: ask the agent to start one builtin per
     * comma-separated name, stopping at the first refusal; the cache is
     * cleared only when all of them started. `agentAnswers[i]` is the agent's
     * answer to the i-th request.
     */
    method AddBuiltin(names: string, agentAnswers: seq<Result<(), string>>) returns (r: Result<(), string>)
      requires |agentAnswers| == |SplitOn(names, ',')|
      modifies this, cache
      ensures State() == old(State())
      ensures var (requested, outcome) := BuiltinRequests(SplitOn(names, ','), agentAnswers);
        && r == outcome && started == old(started) + requested
        && (r.Ok? ==> cache.prompts == map[] && cache.promptInfo == map[])
        && (r.Err? ==> unchanged(cache))
    {
      var requested;
      requested, r := StartBuiltins(SplitOn(names, ','), agentAnswers);
      started := started + requested;
      if r.Ok? {
        cache.Invalidate();
      }
    }
  }

  /**
   * What `add_builtin` asks of the agent and what it reports: every builtin up
   * to and including the first refused one, and the first refusal's error.
   */
  function BuiltinRequests(pieces: seq<string>, agentAnswers: seq<Result<(), string>>)
    : (o: (seq<ExtensionConfig>, Result<(), string>))
    requires |agentAnswers| == |pieces|
    ensures var k := FirstFailure(agentAnswers); var configs := PieceConfigs(pieces);
      && (k == |agentAnswers| ==> o == (configs, Ok(())))
      && (k < |agentAnswers| ==> o == (configs[..k + 1], Err(FailedBuiltin + agentAnswers[k].error)))
  {
    var k := FirstFailure(agentAnswers);
    if k == |agentAnswers| then (PieceConfigs(pieces), Ok(()))
    else (PieceConfigs(pieces)[..k + 1], Err(FailedBuiltin + agentAnswers[k].error))
  }

  /** The loop of `Session::add_builtin` over the comma-separated pieces, without the cache. */
  method StartBuiltins(pieces: seq<string>, agentAnswers: seq<Result<(), string>>)
    returns (requested: seq<ExtensionConfig>, r: Result<(), string>)
    requires |agentAnswers| == |pieces|
    ensures (requested, r) == BuiltinRequests(pieces, agentAnswers)
  {
    ghost var configs := PieceConfigs(pieces);
    requested := [];
    var i := 0;
    while i < |pieces|
      invariant 0 <= i <= |pieces|
      invariant forall j | 0 <= j < i :: agentAnswers[j].Ok?
      invariant requested == configs[..i]
    {
      var config := BuiltinConfig(pieces[i]);
      assert configs[..i + 1] == configs[..i] + [config];
      requested := requested + [config];
      if agentAnswers[i].Err? {
        FirstFailureAt(agentAnswers, i);
        return requested, Err(FailedBuiltin + agentAnswers[i].error);
      }
      i := i + 1;
    }
    assert configs[..i] == configs;
    FirstFailureAt(agentAnswers, i);
    r := Ok(());
  }

  /**
   * The parsing loop of `Session::add_extension`: take leading words that
   * contain `=` as assignments, cutting each at its first `=`, then the next
   * word as the command and the rest as its arguments.
   */
  method ReadExtensionCommand(command: string) returns (r: Result<StdioCommand, string>)
    ensures r == ParseExtensionCommand(command)
  {
    var parts := Words(command);
    ghost var tokens := parts;
    ghost var k := 0;
    var envs: map<string, string> := map[];
    while |parts| > 0 && '=' in parts[0]
      invariant k <= |tokens| && parts == tokens[k..]
      invariant forall j | 0 <= j < k :: '=' in tokens[j]
      invariant envs == InsertAll(EnvPairs(tokens[..k]))
      decreases |parts|
    {
      var kv := SplitOnce(parts[0], '=');
      EnvPairsSnoc(tokens, k);
      InsertAllSnoc(EnvPairs(tokens[..k]), kv);
      envs := envs[kv.0 := kv.1];
      parts := parts[1..];
      k := k + 1;
    }
    assert k == EnvPrefixLength(tokens);
    if |parts| == 0 {
      return Err(NoCommandProvided);
    }
    r := Ok(StdioCommand(envs, parts[0], parts[1..]));
  }

  /** The loop of `handle_interrupted_messages` that answers every outstanding request with the notification. */
  method ResponsesFor(toolRequests: seq<PendingCall>, notification: string) returns (responses: seq<MessageContent>)
    ensures responses == InterruptResponses(toolRequests, notification)
  {
    responses := [];
    var i := 0;
    while i < |toolRequests|
      invariant 0 <= i <= |toolRequests|
      invariant responses == InterruptResponses(toolRequests[..i], notification)
    {
      assert toolRequests[..i + 1][..i] == toolRequests[..i];
      responses := responses + [ToolResponse(toolRequests[i].id, Err(ExecutionError(notification)))];
      i := i + 1;
    }
    assert toolRequests[..i] == toolRequests;
  }

  /** `FirstFailure` is the first failing position: everything before `i` succeeded. */
  lemma FirstFailureAt(results: seq<Result<(), string>>, i: nat)
    requires i <= |results|
    requires forall j | 0 <= j < i :: results[j].Ok?
    requires i == |results| || results[i].Err?
    ensures FirstFailure(results) == i
  {
  }

  const InvalidModeTail: string := "'. Mode must be one of: auto, approve, chat"

  /**
   * The `/mode` command: an accepted mode is stored under `GOOSE_MODE` in
   * lower case; any other text is refused with an error that names it.
   */
  method ModeCommand(config: Config, mode: string) returns (r: Result<GooseMode, string>)
    modifies config
    ensures ParseMode(mode).None? ==>
      r == Err("Invalid mode '" + ToLowerAscii(mode) + InvalidModeTail) && unchanged(config)
    ensures ParseMode(mode).Some? ==>
      && r == Ok(ParseMode(mode).value)
      && config.values == old(config.values)["GOOSE_MODE" := Str(ToLowerAscii(mode))]
      && config.extensions == old(config.extensions) && config.experiments == old(config.experiments)
  {
    var lower := ToLowerAscii(mode);
    var parsed := ParseMode(mode);
    if parsed.None? {
      return Err("Invalid mode '" + lower + InvalidModeTail);
    }
    config.Set("GOOSE_MODE", Str(lower));
    r := Ok(parsed.value);
  }
}
