/**
 * The provider-neutral conversation model (crates/ai-sdk/src/message.rs), what a provider
 * may stream (provider.rs) and what the loop reports back (loop_event.rs, control.rs).
 *
 * Text is a UTF-8 byte string, one `char` per byte, so `|t|` is the length the source
 * measures.  A JSON value is identified by its canonical rendering.
 */
module Conversation {
  import opened Wrappers
  import opened Metering

  type Text = seq<char>

  datatype Json = Json(rendered: Text)

  const EMPTY_OBJECT := Json("{}")

  datatype Thinking =
    | Visible(text: Text, signature: Option<Text>)
    | Redacted(data: Text)

  datatype AssistantContent =
    | Said(text: Text)
    | ToolUse(id: Text, name: Text, input: Json)
    | Thought(thinking: Thinking)

  datatype UserContent =
    | Asked(text: Text)
    | Attached(reference: Text)
    | ToolResult(id: Text, content: Text, isError: bool)

  datatype Message =
    | User(parts: seq<UserContent>)
    | Assistant(blocks: seq<AssistantContent>)

  predicate IsSigned(content: AssistantContent) {
    content.Thought? && (content.thinking.Redacted? || content.thinking.signature.Some?)
  }

  predicate HasSigned(blocks: seq<AssistantContent>) {
    exists i :: 0 <= i < |blocks| && IsSigned(blocks[i])
  }

  predicate HasSignedHistory(messages: seq<Message>) {
    exists i :: 0 <= i < |messages| && messages[i].Assistant? && HasSigned(messages[i].blocks)
  }

  /** The ids of the tool_use blocks of an assistant turn, in order. */
  function UseIds(blocks: seq<AssistantContent>): seq<Text> {
    if blocks == [] then []
    else (if blocks[0].ToolUse? then [blocks[0].id] else []) + UseIds(blocks[1..])
  }

  /** The ids of the tool_result parts of a user turn, in order. */
  function ResultIds(parts: seq<UserContent>): seq<Text> {
    if parts == [] then []
    else (if parts[0].ToolResult? then [parts[0].id] else []) + ResultIds(parts[1..])
  }

  lemma UseIdsStep(blocks: seq<AssistantContent>)
    requires blocks != []
    ensures UseIds(blocks) == (if blocks[0].ToolUse? then [blocks[0].id] else []) + UseIds(blocks[1..])
  {
  }

  lemma ResultIdsStep(parts: seq<UserContent>)
    requires parts != []
    ensures ResultIds(parts) == (if parts[0].ToolResult? then [parts[0].id] else []) + ResultIds(parts[1..])
  {
  }

  lemma NoIds()
    ensures UseIds([]) == [] && ResultIds([]) == []
  {
  }

  lemma {:induction false} UseIdsConcat(a: seq<AssistantContent>, b: seq<AssistantContent>)
    ensures UseIds(a + b) == UseIds(a) + UseIds(b)
  {
    hide UseIds;
    if a == [] {
      NoIds();
      assert a + b == b;
    } else {
      UseIdsConcat(a[1..], b);
      UseIdsStep(a);
      UseIdsStep(a + b);
      assert (a + b)[1..] == a[1..] + b;
    }
  }

  lemma {:induction false} ResultIdsConcat(a: seq<UserContent>, b: seq<UserContent>)
    ensures ResultIds(a + b) == ResultIds(a) + ResultIds(b)
  {
    hide ResultIds;
    if a == [] {
      NoIds();
      assert a + b == b;
    } else {
      ResultIdsConcat(a[1..], b);
      ResultIdsStep(a);
      ResultIdsStep(a + b);
      assert (a + b)[1..] == a[1..] + b;
    }
  }

  datatype StopReason =
    | EndTurn
    | MaxTokens
    | StopSequence(matched: Text)
    | ToolUseStop
    | Refusal
    | Pause
    | OtherStop(value: Text)

  datatype StreamEvent =
    | Start(usage: Usage)
    | Progress(usage: Usage)
    | TextDelta(delta: Text)
    | ReasoningDelta(delta: Text)
    | SignatureDelta(delta: Text)
    | CompleteBlock(index: nat, content: AssistantContent)
    | ToolCall(id: Text, name: Text, arguments: Text)
    | End(stop: StopReason, usage: Usage)

  /** A tool call with its arguments parsed once; malformed ones carry an empty object. */
  datatype ParsedCall = ParsedCall(id: Text, name: Text, args: Json, malformed: bool)

  datatype ToolOutcome =
    | Returned(value: Text)
    | Denied(message: Text)
    | Failed(message: Text)

  datatype Finish =
    | TurnEnded
    | StepLimit(steps: nat)
    | Stopped
    | Cancelled

  datatype AgentEvent =
    | StepStart(index: nat)
    | MessageDelta(text: Text)
    | ReasoningUpdate(text: Text)
    | ToolRequested(id: Text, name: Text, args: Json)
    | ToolFinished(id: Text, outcome: ToolOutcome)
    | StepEnd(index: nat, usage: Usage, cost: Option<real>)
    | Done(usage: Usage, cost: Option<real>, steps: nat, finish: Finish)

  function Ids(calls: seq<ParsedCall>): seq<Text> {
    seq(|calls|, i requires 0 <= i < |calls| => calls[i].id)
  }

  predicate Distinct<T(==)>(xs: seq<T>) {
    forall i, j :: 0 <= i < j < |xs| ==> xs[i] != xs[j]
  }
}
