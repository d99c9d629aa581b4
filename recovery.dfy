/**
 * Interrupt recovery (`Session::handle_interrupted_messages`) as a function of
 * the transcript: a case analysis over the shape of its last message. The
 * result says which transcript is left and which snapshots were persisted, in
 * order.
 */
module Recovery {
  import opened Wrappers
  import opened Messages

  const InterruptedByUser: string := "Interrupted by the user to make a correction"
  const UncaughtError: string := "An uncaught error happened during tool use"
  const ToolLoopInterrupted: string := "The tool calling loop was interrupted. How would you like to proceed?"

  /** The error text put into every synthetic tool response. */
  function Notification(interrupt: bool): string {
    if interrupt then InterruptedByUser else UncaughtError
  }

  /** The tool the note names: that of the last request, or "tool" when its call did not parse. */
  function LastToolName(reqs: seq<PendingCall>): string {
    if reqs != [] && reqs[|reqs| - 1].call.Ok? then reqs[|reqs| - 1].call.value.name else "tool"
  }

  function InterruptedCallNote(toolName: string): string {
    "The existing call to " + toolName + " was interrupted. How would you like to proceed?"
  }

  /** One execution-error response per request, in request order. */
  function InterruptResponses(reqs: seq<PendingCall>, notification: string): seq<MessageContent> {
    if reqs == [] then []
    else
      InterruptResponses(reqs[..|reqs| - 1], notification)
        + [ToolResponse(reqs[|reqs| - 1].id, Err(ExecutionError(notification)))]
  }

  lemma {:induction false} InterruptResponsesAt(reqs: seq<PendingCall>, notification: string)
    ensures |InterruptResponses(reqs, notification)| == |reqs|
    ensures forall i | 0 <= i < |reqs| ::
      InterruptResponses(reqs, notification)[i] == ToolResponse(reqs[i].id, Err(ExecutionError(notification)))
    decreases |reqs|
  {
    if reqs != [] {
      var init := reqs[..|reqs| - 1];
      InterruptResponsesAt(init, notification);
      forall i | 0 <= i < |init| ensures init[i] == reqs[i] { }
    }
  }

  /** The outstanding requests: those of the last message when it is the assistant's. */
  function PendingRequests(msgs: seq<Message>): seq<PendingCall> {
    if msgs != [] && msgs[|msgs| - 1].role == Assistant then ToolRequests(msgs[|msgs| - 1].content) else []
  }

  /** The shapes the tail of a transcript can take, as far as recovery is concerned. */
  datatype TailShape =
    | OutstandingRequests  // last is the assistant's and holds tool requests
    | AnsweredTool         // last is the user's and starts with a tool response
    | UnansweredUser       // last is the user's and starts with anything else
    | EmptyUser            // last is the user's and has no content
    | Settled              // no message, or last is the assistant's without tool requests

  function Shape(msgs: seq<Message>): TailShape {
    if PendingRequests(msgs) != [] then OutstandingRequests
    else if msgs == [] || msgs[|msgs| - 1].role == Assistant then Settled
    else if msgs[|msgs| - 1].content == [] then EmptyUser
    else if msgs[|msgs| - 1].content[0].ToolResponse? then AnsweredTool
    else UnansweredUser
  }

  /** What recovery leaves behind; `saved` lists the persisted snapshots in order. */
  datatype Outcome =
    | Recovered(messages: seq<Message>, saved: seq<seq<Message>>)
    | NoContentPanic

  function Recover(msgs: seq<Message>, interrupt: bool): Outcome {
    match Shape(msgs)
    case OutstandingRequests =>
      var reqs := PendingRequests(msgs);
      var responses := Message(User, InterruptResponses(reqs, Notification(interrupt)));
      var note := AssistantText(InterruptedCallNote(LastToolName(reqs)));
      Recovered(msgs + [responses, note], [msgs + [responses], msgs + [responses, note]])
    case AnsweredTool =>
      var note := AssistantText(ToolLoopInterrupted);
      Recovered(msgs + [note], [msgs + [note]])
    case UnansweredUser =>
      Recovered(msgs[..|msgs| - 1], [])
    case EmptyUser =>
      NoContentPanic
    case Settled =>
      Recovered(msgs, [])
  }

  /**
   * Last message from the assistant with k >= 1 tool requests: two messages are
   * appended and persisted one after the other. The first is the user's and
   * answers every request, by id and in order, with an execution error whose
   * text says whether the user interrupted; the second is an assistant note
   * naming the last request's tool.
   */
  lemma RecoverOutstandingRequests(msgs: seq<Message>, interrupt: bool)
    requires msgs != [] && msgs[|msgs| - 1].role == Assistant
    requires ToolRequests(msgs[|msgs| - 1].content) != []
    ensures var r := Recover(msgs, interrupt);
      var reqs := ToolRequests(msgs[|msgs| - 1].content);
      && r.Recovered?
      && |r.messages| == |msgs| + 2 && r.messages[..|msgs|] == msgs
      && r.messages[|msgs|].role == User
      && |r.messages[|msgs|].content| == |reqs|
      && (forall i | 0 <= i < |reqs| ::
            && r.messages[|msgs|].content[i].ToolResponse?
            && r.messages[|msgs|].content[i].id == reqs[i].id
            && r.messages[|msgs|].content[i].toolResult.Err?
            && r.messages[|msgs|].content[i].toolResult.error.ExecutionError?
            && r.messages[|msgs|].content[i].toolResult.error.message
               == (if interrupt then InterruptedByUser else UncaughtError))
      && r.messages[|msgs| + 1] == AssistantText(InterruptedCallNote(LastToolName(reqs)))
      && r.saved == [r.messages[..|msgs| + 1], r.messages]
  {
    var reqs := ToolRequests(msgs[|msgs| - 1].content);
    InterruptResponsesAt(reqs, Notification(interrupt));
    var r := Recover(msgs, interrupt);
    assert r.messages[..|msgs|] == msgs;
    assert r.messages[..|msgs| + 1] == r.saved[0];
  }

  /**
   * The note names the tool of the last `ToolRequest` item of the interrupted
   * message, or "tool" when that call failed to parse.
   */
  lemma InterruptNoteNamesLastCall(msgs: seq<Message>, interrupt: bool)
    requires msgs != [] && msgs[|msgs| - 1].role == Assistant
    requires ToolRequests(msgs[|msgs| - 1].content) != []
    ensures var cs := msgs[|msgs| - 1].content;
      exists j | 0 <= j < |cs| ::
        && cs[j].ToolRequest?
        && (forall k | j < k < |cs| :: !cs[k].ToolRequest?)
        && Recover(msgs, interrupt).messages[|msgs| + 1]
           == AssistantText(InterruptedCallNote(if cs[j].toolCall.Ok? then cs[j].toolCall.value.name else "tool"))
  {
    var cs := msgs[|msgs| - 1].content;
    LastToolRequest(cs);
    RecoverOutstandingRequests(msgs, interrupt);
  }

  /**
   * Last message from the user starting with a tool response: one assistant
   * note is appended and persisted; the earlier messages are untouched.
   */
  lemma RecoverAnsweredTool(msgs: seq<Message>, interrupt: bool)
    requires msgs != [] && msgs[|msgs| - 1].role == User
    requires msgs[|msgs| - 1].content != [] && msgs[|msgs| - 1].content[0].ToolResponse?
    ensures var r := Recover(msgs, interrupt);
      && r.Recovered?
      && |r.messages| == |msgs| + 1 && r.messages[..|msgs|] == msgs
      && r.messages[|msgs|] == AssistantText(ToolLoopInterrupted)
      && r.saved == [r.messages]
  {
    var r := Recover(msgs, interrupt);
    assert r.messages[..|msgs|] == msgs;
  }

  /**
   * Last message from the user starting with anything else: exactly that
   * message is removed and nothing is persisted.
   */
  lemma RecoverUnansweredUser(msgs: seq<Message>, interrupt: bool)
    requires msgs != [] && msgs[|msgs| - 1].role == User
    requires msgs[|msgs| - 1].content != [] && !msgs[|msgs| - 1].content[0].ToolResponse?
    ensures var r := Recover(msgs, interrupt);
      r.Recovered? && r.messages + [msgs[|msgs| - 1]] == msgs && r.saved == []
  {
    assert msgs[..|msgs| - 1] + [msgs[|msgs| - 1]] == msgs;
  }

  /** Recovery fails exactly when the last message is the user's and has no content. */
  lemma RecoverPanicsOnlyOnEmptyUser(msgs: seq<Message>, interrupt: bool)
    ensures Recover(msgs, interrupt).NoContentPanic?
      <==> msgs != [] && msgs[|msgs| - 1].role == User && msgs[|msgs| - 1].content == []
  {
  }

  /**
   * With no message, or a last assistant message without tool requests, the
   * transcript is left as it is and nothing is persisted.
   */
  lemma RecoverSettled(msgs: seq<Message>, interrupt: bool)
    requires msgs == [] || (msgs[|msgs| - 1].role == Assistant
      && forall c | c in msgs[|msgs| - 1].content :: !c.ToolRequest?)
    ensures Recover(msgs, interrupt) == Recovered(msgs, [])
  {
  }

  /**
   * Recovery never leaves a fourth shape: the transcript grows by two, grows by
   * one, loses its last message, or stays as it is; every persisted snapshot
   * extends the original transcript, and when anything is persisted the last
   * snapshot is the resulting transcript.
   */
  lemma {:induction false} RecoverOutcomes(msgs: seq<Message>, interrupt: bool)
    requires Recover(msgs, interrupt).Recovered?
    ensures var r := Recover(msgs, interrupt);
      || (|r.messages| == |msgs| + 2 && r.messages[..|msgs|] == msgs && |r.saved| == 2)
      || (|r.messages| == |msgs| + 1 && r.messages[..|msgs|] == msgs && |r.saved| == 1)
      || (msgs != [] && r.messages == msgs[..|msgs| - 1] && r.saved == [])
      || (r.messages == msgs && r.saved == [])
    ensures var r := Recover(msgs, interrupt);
      forall s | s in r.saved :: |msgs| < |s| && s[..|msgs|] == msgs
    ensures var r := Recover(msgs, interrupt);
      r.saved != [] ==> r.saved[|r.saved| - 1] == r.messages
  {
    var r := Recover(msgs, interrupt);
    match Shape(msgs)
    case OutstandingRequests =>
      var m := r.messages;
      assert m[..|msgs|] == msgs;
      assert r.saved[0][..|msgs|] == msgs;
    case AnsweredTool =>
      assert r.messages[..|msgs|] == msgs;
    case UnansweredUser =>
    case Settled =>
  }

  /**
   * After the first two kinds of recovery the transcript ends on an assistant
   * note with nothing outstanding, so recovering again changes nothing.
   */
  lemma RecoverSettles(msgs: seq<Message>, interrupt: bool, again: bool)
    requires Shape(msgs) == OutstandingRequests || Shape(msgs) == AnsweredTool
    ensures var r := Recover(msgs, interrupt);
      r.Recovered? && Shape(r.messages) == Settled
      && Recover(r.messages, again) == Recovered(r.messages, [])
  {
    if Shape(msgs) == OutstandingRequests {
      var reqs := PendingRequests(msgs);
      var responses := Message(User, InterruptResponses(reqs, Notification(interrupt)));
      var text := InterruptedCallNote(LastToolName(reqs));
      assert Recover(msgs, interrupt).messages == msgs + [responses] + [AssistantText(text)];
      NoteSettles(msgs + [responses], text);
    } else {
      assert Recover(msgs, interrupt).messages == msgs + [AssistantText(ToolLoopInterrupted)];
      NoteSettles(msgs, ToolLoopInterrupted);
    }
  }

  /** A transcript that ends on a plain assistant note is settled. */
  lemma NoteSettles(msgs: seq<Message>, text: string)
    ensures Shape(msgs + [AssistantText(text)]) == Settled
  {
    var last := AssistantText(text);
    assert ToolRequests(last.content) == ToolRequests(last.content[..0]);
    assert PendingRequests(msgs + [last]) == [];
  }

  /** Recovery adds no message that asks for a tool confirmation. */
  lemma RecoverAddsNoConfirmation(msgs: seq<Message>, interrupt: bool)
    requires Recover(msgs, interrupt).Recovered?
    ensures forall m | m in Recover(msgs, interrupt).messages :: m in msgs || !IsConfirmationRequest(m)
  {
    var r := Recover(msgs, interrupt);
    if Shape(msgs) == OutstandingRequests {
      var reqs := PendingRequests(msgs);
      InterruptResponsesAt(reqs, Notification(interrupt));
      assert r.messages == msgs + [r.messages[|msgs|], r.messages[|msgs| + 1]];
    } else if Shape(msgs) == UnansweredUser {
      forall m | m in r.messages ensures m in msgs {
        var i :| 0 <= i < |r.messages| && r.messages[i] == m;
        assert msgs[i] == m;
      }
    }
  }
}
