/**
 * One step of the reply loop of `Session::process_agent_response`: what the
 * controller does with each item the agent's stream yields, and with Ctrl-C.
 * The race between the stream and the signal is resolved by whichever event
 * comes next in the sequence the loop is given.
 */
module Events {
  import opened Wrappers
  import opened Messages
  import opened Recovery

  datatype Event =
    | Reply(message: Message)          // `Some(Ok(message))` from the stream
    | StreamError(description: string) // `Some(Err(e))` from the stream
    | StreamEnd                        // `None`: the stream closed
    | CtrlC                            // the interrupt signal won the race

  /** An event together with the user's answer, used only if the event asks for confirmation. */
  datatype Arrival = Arrival(event: Event, confirmed: bool)

  /** A decision handed to the agent's `handle_confirmation`. */
  datatype Confirmation = Confirmation(id: string, confirmed: bool)

  /** The controller's observable state: the transcript, the persisted snapshots, the decisions sent. */
  datatype View = View(messages: seq<Message>, saved: seq<seq<Message>>, confirmations: seq<Confirmation>)

  datatype Flow = Continue | Stop | Fatal

  datatype StepOutcome = StepOutcome(view: View, flow: Flow)

  /** Recovery followed by leaving the loop; a panic leaves everything as it was. */
  function AfterRecovery(v: View, interrupt: bool): StepOutcome {
    match Recover(v.messages, interrupt)
    case Recovered(ms, saved) => StepOutcome(View(ms, v.saved + saved, v.confirmations), Stop)
    case NoContentPanic => StepOutcome(v, Fatal)
  }

  function Step(v: View, a: Arrival): StepOutcome {
    match a.event
    case Reply(m) =>
      if IsConfirmationRequest(m) then
        StepOutcome(v.(confirmations := v.confirmations + [Confirmation(m.content[0].id, a.confirmed)]), Continue)
      else
        StepOutcome(v.(messages := v.messages + [m], saved := v.saved + [v.messages + [m]]), Continue)
    case StreamError(_) => AfterRecovery(v, false)
    case CtrlC => AfterRecovery(v, true)
    case StreamEnd => StepOutcome(v, Stop)
  }

  /** The loop: steps until one of them leaves it; running out of events closes the stream. */
  function Run(v: View, arrivals: seq<Arrival>): StepOutcome
    decreases |arrivals|
  {
    if arrivals == [] then StepOutcome(v, Stop)
    else
      var o := Step(v, arrivals[0]);
      if o.flow == Continue then Run(o.view, arrivals[1..]) else o
  }

  /** A confirmation request is answered through the agent and neither appended nor persisted. */
  lemma StepConfirmation(v: View, m: Message, confirmed: bool)
    requires IsConfirmationRequest(m)
    ensures var o := Step(v, Arrival(Reply(m), confirmed));
      && o.flow == Continue
      && o.view.messages == v.messages && o.view.saved == v.saved
      && o.view.confirmations == v.confirmations + [Confirmation(m.content[0].id, confirmed)]
  {
  }

  /** Any other message is appended at the end and the new transcript is persisted. */
  lemma StepRecordsReply(v: View, m: Message, confirmed: bool)
    requires !IsConfirmationRequest(m)
    ensures var o := Step(v, Arrival(Reply(m), confirmed));
      && o.flow == Continue
      && o.view.messages == v.messages + [m]
      && o.view.saved == v.saved + [o.view.messages]
      && o.view.confirmations == v.confirmations
  {
  }

  /** A stream error recovers with `interrupt = false`, Ctrl-C with `interrupt = true`; both leave the loop. */
  lemma StepRecovers(v: View, a: Arrival)
    requires a.event.StreamError? || a.event.CtrlC?
    ensures var o := Step(v, a);
      match Recover(v.messages, a.event.CtrlC?)
      case Recovered(ms, saved) =>
        o == StepOutcome(View(ms, v.saved + saved, v.confirmations), Stop)
      case NoContentPanic =>
        o == StepOutcome(v, Fatal)
  {
  }

  predicate Quiet(a: Arrival) {
    a.event.Reply? || a.event.StreamEnd?
  }

  /** The messages a run without errors or interrupts appends: every non-confirmation reply before the stream ends. */
  function Recorded(arrivals: seq<Arrival>): seq<Message> {
    if arrivals == [] || arrivals[0].event.StreamEnd? then []
    else if !arrivals[0].event.Reply? then []
    else
      var m := arrivals[0].event.message;
      (if IsConfirmationRequest(m) then [] else [m]) + Recorded(arrivals[1..])
  }

  /**
   * A run without errors or interrupts only appends: the transcript grows by
   * exactly the recorded replies, in arrival order, none of them a
   * confirmation request; one snapshot is persisted per appended message, and
   * each snapshot is the transcript as it was right after that append.
   */
  lemma {:induction false} RunAppendsReplies(v: View, arrivals: seq<Arrival>)
    requires forall i | 0 <= i < |arrivals| :: Quiet(arrivals[i])
    ensures var o := Run(v, arrivals);
      && o.flow == Stop
      && o.view.messages == v.messages + Recorded(arrivals)
      && |o.view.saved| == |v.saved| + |Recorded(arrivals)|
      && o.view.saved[..|v.saved|] == v.saved
      && (forall j | |v.saved| <= j < |o.view.saved| ::
            && |o.view.saved[j]| == |v.messages| + (j - |v.saved|) + 1
            && o.view.saved[j] == o.view.messages[..|o.view.saved[j]|])
      && (forall m | m in Recorded(arrivals) :: !IsConfirmationRequest(m))
    decreases |arrivals|
  {
    if arrivals != [] && arrivals[0].event.Reply? {
      var a := arrivals[0];
      var o1 := Step(v, a);
      var rest := arrivals[1..];
      assert forall i | 0 <= i < |rest| :: rest[i] == arrivals[i + 1];
      RunAppendsReplies(o1.view, rest);
      var o := Run(v, arrivals);
      assert o == Run(o1.view, rest);
      var m := a.event.message;
      if IsConfirmationRequest(m) {
        assert Recorded(arrivals) == Recorded(rest);
      } else {
        assert Recorded(arrivals) == [m] + Recorded(rest);
        assert o1.view.messages == v.messages + [m];
        assert o.view.messages == v.messages + Recorded(arrivals);
        var j0 := |v.saved|;
        assert o.view.saved[j0] == o1.view.saved[j0] == v.messages + [m];
        assert o.view.messages[..|v.messages| + 1] == v.messages + [m];
        assert o.view.saved[..|v.saved|] == o1.view.saved[..|o1.view.saved|][..|v.saved|];
      }
    }
  }

  /** Whatever happens, no message the run adds asks for a tool confirmation. */
  lemma {:induction false} RunAddsNoConfirmation(v: View, arrivals: seq<Arrival>)
    ensures var o := Run(v, arrivals);
      forall m | m in o.view.messages :: m in v.messages || !IsConfirmationRequest(m)
    decreases |arrivals|
  {
    if arrivals != [] {
      var o1 := Step(v, arrivals[0]);
      match arrivals[0].event
      case Reply(m) =>
        RunAddsNoConfirmation(o1.view, arrivals[1..]);
      case StreamError(_) =>
        if Recover(v.messages, false).Recovered? { RecoverAddsNoConfirmation(v.messages, false); }
      case CtrlC =>
        if Recover(v.messages, true).Recovered? { RecoverAddsNoConfirmation(v.messages, true); }
      case StreamEnd =>
    }
  }

  /**
   * An empty session where the user says something
   * and the model answers without tools ends with exactly the user message and
   * the answer, persisted twice.
   */
  lemma HelloScenario(text: string, answer: Message, confirmed: bool)
    requires answer.role == Assistant && !IsConfirmationRequest(answer)
    ensures var v := View([UserText(text)], [[UserText(text)]], []);
      var o := Run(v, [Arrival(Reply(answer), confirmed), Arrival(StreamEnd, confirmed)]);
      && o.flow == Stop
      && o.view.messages == [UserText(text), answer]
      && |o.view.saved| == 2 && o.view.saved[1] == o.view.messages
  {
    var v := View([UserText(text)], [[UserText(text)]], []);
    var arrivals := [Arrival(Reply(answer), confirmed), Arrival(StreamEnd, confirmed)];
    assert arrivals[1..] == [Arrival(StreamEnd, confirmed)];
  }

  /**
   * Ctrl-C while the model's tool calls are
   * outstanding adds one interrupted-by-the-user response per request and one
   * note, and the session stays usable.
   */
  lemma CancelDuringToolCall(v: View, confirmed: bool)
    requires v.messages != [] && v.messages[|v.messages| - 1].role == Assistant
    requires ToolRequests(v.messages[|v.messages| - 1].content) != []
    ensures var o := Run(v, [Arrival(CtrlC, confirmed)]);
      var reqs := ToolRequests(v.messages[|v.messages| - 1].content);
      var n := |v.messages|;
      && o.flow == Stop
      && |o.view.messages| == n + 2
      && |o.view.messages[n].content| == |reqs|
      && (forall i | 0 <= i < |reqs| ::
            o.view.messages[n].content[i] == ToolResponse(reqs[i].id, Err(ExecutionError(InterruptedByUser))))
      && o.view.messages[n + 1].role == Assistant
      && |o.view.saved| == |v.saved| + 2
  {
    RecoverOutstandingRequests(v.messages, true);
    InterruptResponsesAt(ToolRequests(v.messages[|v.messages| - 1].content), InterruptedByUser);
  }
}
