/** The conversation values the session controller keeps: roles, content items and messages. */
module Messages {
  import opened Wrappers

  datatype Role = User | Assistant

  /** A parsed tool call: the tool's name and its JSON arguments, kept as text. */
  datatype ToolCall = ToolCall(name: string, arguments: string)

  datatype ToolError =
    | InvalidParameters(message: string)
    | ExecutionError(message: string)
    | SchemaError(message: string)
    | NotFound(message: string)

  /** The content items a message can hold; a request's call may itself have failed to parse. */
  datatype MessageContent =
    | Text(text: string)
    | ToolRequest(id: string, toolCall: Result<ToolCall, ToolError>)
    | ToolResponse(id: string, toolResult: Result<seq<string>, ToolError>)
    | ToolConfirmationRequest(id: string, toolName: string, arguments: string, prompt: Option<string>)

  datatype Message = Message(role: Role, content: seq<MessageContent>)

  /** `Message::user().with_text(t)` */
  function UserText(t: string): Message {
    Message(User, [Text(t)])
  }

  /** `Message::assistant().with_text(t)` */
  function AssistantText(t: string): Message {
    Message(Assistant, [Text(t)])
  }

  /** A stream item the controller answers instead of recording: its first content asks for confirmation. */
  predicate IsConfirmationRequest(m: Message) {
    |m.content| > 0 && m.content[0].ToolConfirmationRequest?
  }

  /** The id and call of one `ToolRequest` content item. */
  datatype PendingCall = PendingCall(id: string, call: Result<ToolCall, ToolError>)

  /** The tool requests among a message's contents, in content order (a `filter_map`). */
  function ToolRequests(cs: seq<MessageContent>): (r: seq<PendingCall>)
    ensures |r| <= |cs|
    ensures forall i | 0 <= i < |r| :: ToolRequest(r[i].id, r[i].call) in cs
    ensures r == [] <==> forall j | 0 <= j < |cs| :: !cs[j].ToolRequest?
  {
    if cs == [] then []
    else
      var c := cs[|cs| - 1];
      ToolRequests(cs[..|cs| - 1]) + (if c.ToolRequest? then [PendingCall(c.id, c.toolCall)] else [])
  }

  /** The last request found is the last `ToolRequest` item of the contents. */
  lemma {:induction false} LastToolRequest(cs: seq<MessageContent>)
    requires ToolRequests(cs) != []
    ensures var r := ToolRequests(cs);
      exists j | 0 <= j < |cs| :: cs[j] == ToolRequest(r[|r| - 1].id, r[|r| - 1].call)
        && forall k | j < k < |cs| :: !cs[k].ToolRequest?
    decreases |cs|
  {
    var init := cs[..|cs| - 1];
    var c := cs[|cs| - 1];
    if !c.ToolRequest? {
      assert ToolRequests(cs) == ToolRequests(init);
      LastToolRequest(init);
      var r := ToolRequests(init);
      var j :| 0 <= j < |init| && init[j] == ToolRequest(r[|r| - 1].id, r[|r| - 1].call)
        && forall k | j < k < |init| :: !init[k].ToolRequest?;
      assert cs[j] == init[j];
      forall k | j < k < |cs| ensures !cs[k].ToolRequest? {
        if k < |init| { assert cs[k] == init[k]; }
      }
    } else {
      assert cs[|cs| - 1] == ToolRequest(c.id, c.toolCall);
    }
  }
}
