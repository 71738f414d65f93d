/**
 * The agent loop (crates/ai-sdk/src/agent.rs, `run_inner`).
 *
 * Everything the loop does not decide is an arbitrary oracle in `Env`: middleware hooks may
 * rewrite the messages, the model and the system prompt, a provider may stream any events and
 * break off anywhere, and cancellation may strike between any two of them.
 */
module AgentLoop {
  import opened Wrappers
  import opened Metering
  import opened Conversation
  import opened StepAccumulator
  import opened Replay
  import opened ToolBatch

  const DEFAULT_MAX_STEPS: nat := 16
  const SKILL_TOOLS: seq<Text> := ["load_skill", "search_skills"]

  datatype Convo = Convo(messages: seq<Message>, model: Text, system: Option<Text>)

  datatype Flow = Continue | Stop | Error

  datatype Hooked = Hooked(convo: Convo, flow: Flow)

  /** How a stream that never sent its terminal event came to an end. */
  datatype Ending = RanOut | Broke | CancelledMidStream

  datatype Acquired =
    | Ready(first: StreamEvent, rest: seq<StreamEvent>, ending: Ending)
    | NotOpened
    | CancelledInFlight(promptTokens: Count)

  datatype Env = Env(
    middleware: nat,
    skills: Option<Option<seq<Text>>>,
    manifest: seq<Text> -> Text,
    cancelled: nat -> bool,
    onStart: (nat, Convo) -> Hooked,
    onStep: (nat, nat, Convo) -> Hooked,
    onStepDone: (nat, nat, Convo) -> Hooked,
    approve: Approver,
    dispatch: Dispatcher,
    registered: Text -> bool,
    cacheable: Request -> bool,
    acquire: (nat, Request) -> Acquired,
    parse: Parser,
    price: (Text, Usage) -> Option<real>,
    listed: Text -> bool)

  function SystemPrompt(system: Option<Text>, manifest: Option<Text>): Option<Text> {
    match (system, manifest)
    case (Some(base), None) => Some(base)
    case (Some(base), Some(m)) => Some(base + "\n\n" + m)
    case (None, m) => m
  }

  /** Nothing of the base prompt or of the manifest is lost, and nothing comes before the one or after the other. */
  lemma PromptHolds(system: Option<Text>, manifest: Option<Text>)
    ensures var prompt := SystemPrompt(system, manifest);
            && (prompt.None? <==> system.None? && manifest.None?)
            && (system.Some? ==> system.value <= prompt.value && (manifest.None? ==> prompt == system))
            && (manifest.Some? ==>
                  && |prompt.value| >= |manifest.value|
                  && prompt.value[|prompt.value| - |manifest.value|..] == manifest.value
                  && (system.None? ==> prompt == manifest)
                  && (system.Some? ==> |prompt.value| > |system.value| + |manifest.value|))
  {
    if system.Some? && manifest.Some? {
      assert (system.value + "\n\n" + manifest.value)[|system.value| + 2..] == manifest.value;
    }
  }

  function RequestFor(c: Convo, manifest: Option<Text>, tools: seq<Text>): Request {
    Request(c.model, SystemPrompt(c.system, manifest), c.messages, tools)
  }

  /** The middlewares from `i` on, each seeing what the previous one left, up to the first stop. */
  function HookPass(i: nat, count: nat, hook: (nat, Convo) -> Hooked, c: Convo): Hooked
    decreases count - i
  {
    if i >= count then Hooked(c, Continue)
    else if hook(i, c).flow.Continue? then HookPass(i + 1, count, hook, hook(i, c).convo)
    else hook(i, c)
  }

  /** What the first middlewares each leave to the next: all continued but perhaps the last. */
  ghost predicate Passes(hook: (nat, Convo) -> Hooked, cs: seq<Convo>) {
    && cs != []
    && (forall i :: 0 <= i < |cs| - 1 ==> hook(i, cs[i]).convo == cs[i + 1])
    && forall i :: 0 <= i < |cs| - 2 ==> hook(i, cs[i]).flow.Continue?
  }

  /** A pass takes the middlewares in order, each from what the one before left, and ends at one that stops. */
  lemma HooksInOrder(count: nat, hook: (nat, Convo) -> Hooked, c: Convo) returns (cs: seq<Convo>)
    ensures Passes(hook, cs) && cs[0] == c && |cs| <= count + 1
    ensures var pass := HookPass(0, count, hook, c);
            && pass.convo == cs[|cs| - 1] && HookCalls(0, count, hook, c) == |cs| - 1
            && (pass.flow.Continue? ==> |cs| == count + 1 && (count > 0 ==> hook(count - 1, cs[count - 1]).flow.Continue?))
            && (!pass.flow.Continue? ==> |cs| > 1 && pass.flow == hook(|cs| - 2, cs[|cs| - 2]).flow)
  {
    cs := [c];
    while |cs| <= count
      invariant 1 <= |cs| <= count + 1 && Passes(hook, cs) && cs[0] == c
      invariant |cs| > 1 ==> hook(|cs| - 2, cs[|cs| - 2]).flow.Continue?
      invariant HookPass(0, count, hook, c) == HookPass(|cs| - 1, count, hook, cs[|cs| - 1])
      invariant HookCalls(0, count, hook, c) == |cs| - 1 + HookCalls(|cs| - 1, count, hook, cs[|cs| - 1])
      decreases count + 1 - |cs|
    {
      var i := |cs| - 1;
      var reply := hook(i, cs[i]);
      cs := cs + [reply.convo];
      if !reply.flow.Continue? {
        return;
      }
    }
  }

  function StepHook(env: Env, index: nat): (nat, Convo) -> Hooked {
    (i: nat, c: Convo) => env.onStep(index, i, c)
  }

  function StepDoneHook(env: Env, index: nat): (nat, Convo) -> Hooked {
    (i: nat, c: Convo) => env.onStepDone(index, i, c)
  }

  // ----- Tool pairing of a conversation ---------------------------------------------------------

  /** Every tool_use is answered in the very next turn. */
  ghost predicate WellPaired(messages: seq<Message>) {
    forall k :: 0 <= k < |messages| && messages[k].Assistant? && UseIds(messages[k].blocks) != [] ==>
      && k + 1 < |messages| && messages[k + 1].User?
      && forall id :: id in UseIds(messages[k].blocks) ==> id in ResultIds(messages[k + 1].parts)
  }

  ghost predicate Harmless(hook: (nat, Convo) -> Hooked) {
    forall i: nat, c: Convo :: WellPaired(c.messages) ==> WellPaired(hook(i, c).convo.messages)
  }

  /** No middleware of this environment breaks a pairing. */
  ghost predicate KeepsPairing(env: Env) {
    && Harmless(env.onStart)
    && (forall index: nat :: Harmless(StepHook(env, index)))
    && (forall index: nat :: Harmless(StepDoneHook(env, index)))
  }

  // ----- Judging a streamed response ----------------------------------------------------------

  datatype TerminalFailure =
    | RequestRefused | OutputLimit | TurnPaused | UnknownReason | NoCalls | CallsNotAuthorized

  /** A completed response must explicitly authorize its queued tools. */
  function TerminalFailureOf(stop: StopReason, hasTools: bool): Option<TerminalFailure> {
    match stop
    case ToolUseStop => if hasTools then None else Some(NoCalls)
    case EndTurn => if hasTools then Some(CallsNotAuthorized) else None
    case StopSequence(_) => if hasTools then Some(CallsNotAuthorized) else None
    case Refusal => Some(RequestRefused)
    case MaxTokens => Some(OutputLimit)
    case Pause => Some(TurnPaused)
    case OtherStop(_) => Some(UnknownReason)
  }

  /** The history passes the block protocol: signatures are backed and blocks match the calls. */
  ghost predicate Accepted(parse: Parser, es: seq<StreamEvent>) {
    && (SignatureIn(es) ==> HasSigned(InOrder(BlocksOf(es))))
    && (BlocksOf(es) == map[] || BlocksMatchCalls(BlocksOf(es), CallsOf(parse, es)))
  }

  /** The calls a response asks for: in block order when blocks came, else as they arrived. */
  function RequestedCalls(parse: Parser, es: seq<StreamEvent>): seq<ParsedCall> {
    if BlocksOf(es) == map[] then CallsOf(parse, es) else CallsIn(InOrder(BlocksOf(es)))
  }

  ghost predicate Completes(parse: Parser, es: seq<StreamEvent>) {
    StopOf(es).Some? && Accepted(parse, es)
  }

  /** Whether the terminal event, if any, fails to authorize what was requested. */
  predicate Unauthorized(parse: Parser, es: seq<StreamEvent>) {
    StopOf(es).None? || TerminalFailureOf(StopOf(es).value, RequestedCalls(parse, es) != []).Some?
  }

  /**
   * A response stands when it asked for tools and named some, or ended its turn or hit a stop sequence
   * without naming any; whatever else it ended with is a failure.
   */
  lemma AuthorizedIff(parse: Parser, es: seq<StreamEvent>)
    ensures !Unauthorized(parse, es) <==>
            && StopOf(es).Some?
            && var stop, calls := StopOf(es).value, RequestedCalls(parse, es);
               if calls != [] then stop.ToolUseStop? else stop.EndTurn? || stop.StopSequence?
  {
    hide StopOf, RequestedCalls;
  }

  /** The calls a completed response is entitled to run. */
  function GrantedCalls(parse: Parser, es: seq<StreamEvent>): seq<ParsedCall> {
    if Unauthorized(parse, es) then [] else RequestedCalls(parse, es)
  }

  function ToolUses(calls: seq<ParsedCall>): seq<AssistantContent> {
    if calls == [] then []
    else [ToolUse(calls[0].id, calls[0].name, calls[0].args)] + ToolUses(calls[1..])
  }

  /** The assistant turn: the exact blocks if the provider sent them, else thinking, text, tools. */
  function AssembleTurn(text: Text, reasoning: Text, calls: seq<ParsedCall>,
                        complete: seq<AssistantContent>): seq<AssistantContent>
  {
    if complete != [] then complete
    else
      (if reasoning != "" then [Thought(Visible(reasoning, None))] else []) +
      (if text != "" then [Said(text)] else []) +
      ToolUses(calls)
  }

  lemma {:induction false} ToolUsesIds(calls: seq<ParsedCall>)
    ensures UseIds(ToolUses(calls)) == Ids(calls)
  {
    if calls != [] {
      ToolUsesIds(calls[1..]);
      assert ToolUses(calls)[1..] == ToolUses(calls[1..]);
      assert Ids(calls) == [calls[0].id] + Ids(calls[1..]);
    }
  }

  lemma TurnIds(text: Text, reasoning: Text, calls: seq<ParsedCall>, complete: seq<AssistantContent>)
    requires complete != [] ==> calls == CallsIn(complete)
    ensures UseIds(AssembleTurn(text, reasoning, calls, complete)) == Ids(calls)
  {
    if complete != [] {
      CallsInUseIds(complete);
    } else {
      var thinking := if reasoning != "" then [Thought(Visible(reasoning, None))] else [];
      var said := if text != "" then [Said(text)] else [];
      ToolUsesIds(calls);
      UseIdsConcat(thinking + said, ToolUses(calls));
      UseIdsConcat(thinking, said);
      assert thinking != [] ==> thinking[1..] == [];
      assert said != [] ==> said[1..] == [];
    }
  }

  // ----- What one request to a provider leaves behind -------------------------------------------

  /** A step that handed a request to the provider: what came back and what the loop did. */
  datatype StepRecord = StepRecord(
    index: nat,
    asked: Convo,
    request: Request,
    applied: seq<StreamEvent>,
    completed: bool,
    calls: seq<ParsedCall>,
    cut: nat,
    dispatched: seq<nat>,
    outcomes: seq<ToolOutcome>,
    turn: seq<AssistantContent>,
    results: seq<UserContent>,
    finished: seq<AgentEvent>,
    metered: seq<Usage>)

  function GateOf(env: Env, index: nat): Gate {
    Gate(index, env.middleware, env.approve, env.dispatch)
  }

  /** The stream was read as far as it went, and no further than its first terminal event. */
  ghost predicate StreamRead(parse: Parser, applied: seq<StreamEvent>, script: seq<StreamEvent>) {
    && applied <= script
    && EndsOnce(applied) && NoneRefused(parse, applied)
    && (StopOf(applied).Some? || applied == script || Refused(parse, applied, script[|applied|]).Some?)
  }

  ghost predicate ReadFaithfully(env: Env, r: StepRecord) {
    match env.acquire(r.index, r.request)
    case Ready(first, rest, _) =>
      StreamRead(env.parse, r.applied, [first] + rest) && (r.completed <==> Completes(env.parse, r.applied))
    case _ => r.applied == [] && !r.completed
  }

  /** The output an interrupted step is metered at: as reported, or as its text suggests if that is more. */
  function PartialOutput(es: seq<StreamEvent>): nat {
    var estimate := EstimatedTokens(|SaidText(es)| + |SaidReasoning(es)|);
    if UsageOf(es).output >= estimate then UsageOf(es).output else estimate
  }

  /** A streamed step is metered once: at what the provider reported, estimating only what was cut short. */
  ghost predicate StreamMetered(r: StepRecord) {
    && |r.metered| == 1
    && r.metered[0] == UsageOf(r.applied).(output := r.metered[0].output)
    && r.metered[0].output == if r.completed then UsageOf(r.applied).output else PartialOutput(r.applied)
  }

  /** Every step that obtained a stream, or was billed in flight, is metered exactly once. */
  ghost predicate MeteredOnce(env: Env, r: StepRecord) {
    match env.acquire(r.index, r.request)
    case Ready(_, _, _) => StreamMetered(r)
    case CancelledInFlight(tokens) => r.metered == [NO_USAGE.(input := tokens)]
    case NotOpened => r.metered == []
  }

  /** Exactly the cleared calls of a response that granted them were dispatched, in order. */
  ghost predicate DispatchedExactly(env: Env, r: StepRecord) {
    && r.calls == (if r.completed then GrantedCalls(env.parse, r.applied) else [])
    && IsCut(GateOf(env, r.index), r.calls, r.cut)
    && StrictlyIncreasing(r.dispatched)
    && forall j: nat :: j in r.dispatched <==> Cleared(GateOf(env, r.index), r.calls, j)
  }

  // ----- What the turns say ---------------------------------------------------------------------------

  /** The text of a response: what was streamed, else what its blocks hold. */
  function SaidText(es: seq<StreamEvent>): Text {
    if TextOf(es) != "" then TextOf(es) else BlockText(InOrder(BlocksOf(es)))
  }

  function SaidReasoning(es: seq<StreamEvent>): Text {
    if ReasoningOf(es) != "" then ReasoningOf(es) else BlockReasoning(InOrder(BlocksOf(es)))
  }

  /** Thinking, then text, where there is any. */
  function Spoken(reasoning: Text, text: Text): seq<AssistantContent> {
    if reasoning == "" then (if text == "" then [] else [Said(text)])
    else if text == "" then [Thought(Visible(reasoning, None))]
    else [Thought(Visible(reasoning, None)), Said(text)]
  }

  /** The blocks themselves, if an authorized response came in blocks. */
  ghost predicate InBlocks(parse: Parser, r: StepRecord) {
    r.completed && !Unauthorized(parse, r.applied) && BlocksOf(r.applied) != map[]
  }

  /**
   * The turn is the provider's own blocks, or what it said and then one tool_use for each call; an
   * interrupted or unauthorized response keeps its text and nothing else.
   */
  ghost predicate Worded(parse: Parser, r: StepRecord) {
    if InBlocks(parse, r) then r.turn == InOrder(BlocksOf(r.applied))
    else
      var reasoning := if r.completed && !Unauthorized(parse, r.applied) then SaidReasoning(r.applied) else "";
      var n := |Spoken(reasoning, SaidText(r.applied))|;
      && |r.turn| == n + |r.calls|
      && r.turn[..n] == Spoken(reasoning, SaidText(r.applied))
      && forall j :: 0 <= j < |r.calls| ==> r.turn[n + j] == ToolUse(r.calls[j].id, r.calls[j].name, r.calls[j].args)
  }

  /** Each call before the cut is settled and the model told; what is left of the batch is cancelled. */
  ghost predicate Answered(g: Gate, r: StepRecord) {
    && |r.outcomes| == r.cut <= |r.calls| && |r.outcomes| <= |r.results|
    && (forall j :: 0 <= j < r.cut ==> Settles(g, j, r.calls[j], r.outcomes[j]))
    && (forall j :: 0 <= j < r.cut ==> Tells(r.results[j], r.calls[j].id, r.outcomes[j]))
    && (forall k :: r.cut <= k < |r.results| ==> IsCancelledResult(r.results[k]))
    && Announces(r.finished, r.results, r.outcomes)
  }

  /** The turns pushed: the tool_use ids are the granted calls, the answers cover them. */
  ghost predicate TurnsMatch(r: StepRecord) {
    && UseIds(r.turn) == Ids(r.calls)
    && r.cut <= |Ids(r.calls)|
    && ResultIds(r.results) == AnsweredIds(Ids(r.calls), r.cut)
    && (forall k :: 0 <= k < |r.results| ==> r.results[k].ToolResult?)
    && (r.calls == [] ==> r.results == [])
    && (!r.completed ==> !HasSigned(r.turn))
  }

  ghost predicate LegalStep(env: Env, r: StepRecord) {
    && ReadFaithfully(env, r) && MeteredOnce(env, r) && DispatchedExactly(env, r) && TurnsMatch(r)
    && Worded(env.parse, r) && Answered(GateOf(env, r.index), r)
  }

  function Appended(r: StepRecord): seq<Message> {
    (if r.turn != [] then [Assistant(r.turn)] else []) + (if r.results != [] then [User(r.results)] else [])
  }

  lemma AppendedTurns(before: seq<Message>, r: StepRecord)
    ensures before + (if r.turn != [] then [Assistant(r.turn)] else [])
                   + (if r.results != [] then [User(r.results)] else [])
            == before + Appended(r)
  {
  }

  // ----- What every legal step guarantees ---------------------------------------------------------

  /**
   * A call reaches a tool exactly when the stream ended asking for tools, the block protocol
   * holds, every middleware allows it, it parses, and no earlier call of the batch was halted.
   */
  lemma DispatchIff(env: Env, r: StepRecord, j: nat)
    requires LegalStep(env, r)
    ensures j in r.dispatched <==>
            && StopOf(r.applied) == Some(ToolUseStop)
            && Accepted(env.parse, r.applied)
            && Cleared(GateOf(env, r.index), RequestedCalls(env.parse, r.applied), j)
  {
    hide Accepted, RequestedCalls, GrantedCalls, Cleared, LegalStep, StopOf;
    DispatchedAre(env, r, j);
    CompletedIff(env, r);
    NothingCleared(GateOf(env, r.index), j);
    if r.completed {
      GrantedIff(env.parse, r.applied);
      ClearedCalls(GateOf(env, r.index), RequestedCalls(env.parse, r.applied), j);
    }
  }

  /** What was dispatched are the cleared calls of those granted. */
  lemma DispatchedAre(env: Env, r: StepRecord, j: nat)
    requires LegalStep(env, r)
    ensures j in r.dispatched <==>
            Cleared(GateOf(env, r.index), if r.completed then GrantedCalls(env.parse, r.applied) else [], j)
  {
    hide ReadFaithfully, MeteredOnce, TurnsMatch, Worded, Answered, Cleared, GrantedCalls, IsCut, StrictlyIncreasing;
  }

  /** A step completes iff its stream ended and was accepted. */
  lemma CompletedIff(env: Env, r: StepRecord)
    requires LegalStep(env, r)
    ensures r.completed <==> StopOf(r.applied).Some? && Accepted(env.parse, r.applied)
  {
    hide MeteredOnce, TurnsMatch, DispatchedExactly, Worded, Answered, Accepted, StreamRead, StopOf;
    NoStop();
  }

  lemma NoStop()
    ensures StopOf([]).None?
  {
  }

  /** An ended response is granted its calls iff it ended asking for tools. */
  lemma GrantedIff(parse: Parser, es: seq<StreamEvent>)
    requires StopOf(es).Some?
    ensures StopOf(es) == Some(ToolUseStop) ==> GrantedCalls(parse, es) == RequestedCalls(parse, es)
    ensures StopOf(es) != Some(ToolUseStop) ==> GrantedCalls(parse, es) == []
  {
    hide RequestedCalls, StopOf;
  }

  lemma NothingCleared(g: Gate, j: nat)
    ensures !Cleared(g, [], j)
  {
    hide AllAllow, Halts;
  }

  lemma ClearedCalls(g: Gate, calls: seq<ParsedCall>, j: nat)
    ensures Cleared(g, calls, j) ==> j < |calls|
  {
    hide AllAllow, Halts;
  }

  lemma TurnsArePaired(env: Env, r: StepRecord)
    requires LegalStep(env, r)
    ensures WellPaired(Appended(r))
  {
    hide ReadFaithfully, MeteredOnce, DispatchedExactly, Worded, Answered, AnsweredIds, Ids;
    if r.turn != [] && UseIds(r.turn) != [] {
      forall id | id in UseIds(r.turn) ensures id in ResultIds(r.results) {
        EveryCallIsAnswered(Ids(r.calls), r.cut, id);
      }
      assert UseIds(r.turn)[0] in UseIds(r.turn);
      assert r.results != [];
    }
  }

  /** With distinct ids the answers are exactly the calls, in order, wherever the batch was cut. */
  lemma DistinctCallsAnsweredInOrder(env: Env, r: StepRecord)
    requires LegalStep(env, r)
    ensures ResultIds(r.results) == UseIds(r.turn) <==>
            forall j :: r.cut <= j < |UseIds(r.turn)| ==> UseIds(r.turn)[j] !in UseIds(r.turn)[..r.cut]
    ensures Distinct(UseIds(r.turn)) ==> ResultIds(r.results) == UseIds(r.turn)
    ensures !r.completed ==> UseIds(r.turn) == []
  {
    AnsweredExactlyIff(Ids(r.calls), r.cut);
  }

  lemma PairedConversations(a: seq<Message>, b: seq<Message>)
    requires WellPaired(a) && WellPaired(b)
    ensures WellPaired(a + b)
  {
    var c := a + b;
    forall k | 0 <= k < |c| && c[k].Assistant? && UseIds(c[k].blocks) != []
      ensures k + 1 < |c| && c[k + 1].User?
              && forall id :: id in UseIds(c[k].blocks) ==> id in ResultIds(c[k + 1].parts)
    {
      if k < |a| {
        assert a[k] == c[k];
        assert a[k + 1] == c[k + 1];
      } else {
        assert b[k - |a|] == c[k];
        assert b[k - |a| + 1] == c[k + 1];
      }
    }
  }

  lemma StepKeepsPairing(env: Env, r: StepRecord, before: seq<Message>)
    requires LegalStep(env, r) && WellPaired(before)
    ensures WellPaired(before + Appended(r))
  {
    TurnsArePaired(env, r);
    PairedConversations(before, Appended(r));
  }

  // ----- The agent -------------------------------------------------------------------------------

  datatype Hook = OnStart(middleware: nat) | OnFinish(middleware: nat)

  function Begun(n: nat): seq<Hook> {
    if n == 0 then [] else Begun(n - 1) + [OnStart(n - 1)]
  }

  function Ended(n: nat): seq<Hook> {
    if n == 0 then [] else Ended(n - 1) + [OnFinish(n - 1)]
  }

  /** What the host sees of a stream as it is read. */
  function Deltas(parse: Parser, es: seq<StreamEvent>): seq<AgentEvent> {
    if es == [] then []
    else
      var delta := LiveDelta(parse, es[|es| - 1]);
      Deltas(parse, es[..|es| - 1]) + (if delta.Some? then [delta.value] else [])
  }

  lemma DeltasStep(parse: Parser, es: seq<StreamEvent>, e: StreamEvent)
    ensures Deltas(parse, es + [e]) ==
            Deltas(parse, es) + (if LiveDelta(parse, e).Some? then [LiveDelta(parse, e).value] else [])
  {
    hide LiveDelta;
    assert (es + [e])[..|es|] == es;
  }

  /** The closing event of a step that completed: what it used and what that cost at its own model. */
  function Closing(env: Env, r: StepRecord): seq<AgentEvent> {
    if r.completed then [StepEnd(r.index, UsageOf(r.applied), env.price(r.asked.model, UsageOf(r.applied)))] else []
  }

  /** Everything the host sees of a step once its request was handed over. */
  function StepEvents(env: Env, r: StepRecord): seq<AgentEvent> {
    Deltas(env.parse, r.applied) + r.finished + Closing(env, r)
  }

  /** And of a run's steps. */
  function RunEvents(env: Env, steps: seq<StepRecord>): seq<AgentEvent> {
    if steps == [] then []
    else
      var r := steps[|steps| - 1];
      RunEvents(env, steps[..|steps| - 1]) + ([StepStart(r.index)] + StepEvents(env, r))
  }

  lemma {:induction false} DeltasNotDone(parse: Parser, es: seq<StreamEvent>)
    ensures forall e :: e in Deltas(parse, es) ==> !e.Done? && !e.StepStart? && !e.StepEnd?
  {
    if es != [] {
      DeltasNotDone(parse, es[..|es| - 1]);
    }
  }

  /** A run's steps say nothing final: the terminal event is the only one. */
  lemma {:induction false} NeverDone(env: Env, p: Plan, steps: seq<StepRecord>)
    requires AllFollow(env, p, steps)
    ensures forall e :: e in RunEvents(env, steps) ==> !e.Done?
  {
    hide StepFollows, Deltas, Closing;
    if steps != [] {
      var n := |steps| - 1;
      var r := steps[n];
      assert steps == steps[..n] + [r];
      FollowFront(env, p, steps[..n], r);
      NeverDone(env, p, steps[..n]);
      DeltasNotDone(env.parse, r.applied);
      FinishedNotDone(env, p, steps, n);
      ClosingNotDone(env, r);
    }
  }

  lemma ClosingNotDone(env: Env, r: StepRecord)
    ensures forall e :: e in Closing(env, r) ==> !e.Done?
  {
  }

  lemma FinishedNotDone(env: Env, p: Plan, steps: seq<StepRecord>, i: nat)
    requires i < |steps| && StepFollows(env, p, steps, i)
    ensures forall e :: e in steps[i].finished ==> !e.Done?
  {
    hide ReadFaithfully, MeteredOnce, DispatchedExactly, TurnsMatch, Worded, GoesOn, Opens;
  }

  /** No event of an accepted prefix ended the stream before its last one. */
  ghost predicate EndsOnce(es: seq<StreamEvent>) {
    forall k :: 0 <= k < |es| ==> StopOf(es[..k]).None?
  }

  lemma EndsOnceSnoc(es: seq<StreamEvent>, e: StreamEvent)
    requires EndsOnce(es) && StopOf(es).None?
    ensures EndsOnce(es + [e])
  {
    var es' := es + [e];
    forall k | 0 <= k < |es'| ensures StopOf(es'[..k]).None? {
      assert es'[..k] == if k < |es| then es[..k] else es;
    }
  }

  ghost predicate NoneRefused(parse: Parser, events: seq<StreamEvent>) {
    forall k :: 0 <= k < |events| ==> Refused(parse, events[..k], events[k]).None?
  }

  lemma NoneRefusedSnoc(parse: Parser, es: seq<StreamEvent>, e: StreamEvent)
    requires NoneRefused(parse, es) && Refused(parse, es, e).None?
    ensures NoneRefused(parse, es + [e])
  {
    hide Refused;
    var es' := es + [e];
    forall k | 0 <= k < |es'| ensures Refused(parse, es'[..k], es'[k]).None? {
      assert es'[..k] == if k < |es| then es[..k] else es;
    }
  }

  /** Reads the stream, forwarding each delta, until its terminal event or a protocol error. */
  method Drain(parse: Parser, script: seq<StreamEvent>) returns (acc: StepAccum, events: seq<AgentEvent>)
    ensures fresh(acc) && acc.parse == parse && acc.Live()
    ensures acc.applied <= script
    ensures acc.protocolError.Some? ==>
              acc.stop.None? && acc.applied < script && Refused(parse, acc.applied, script[|acc.applied|]).Some?
    ensures acc.protocolError.None? && acc.stop.None? ==> acc.applied == script
    ensures EndsOnce(acc.applied) && NoneRefused(parse, acc.applied)
    ensures events == Deltas(parse, acc.applied)
  {
    events := [];
    assert Deltas(parse, []) == [] && NoneRefused(parse, []);
    hide TextOf, ReasoningOf, SignatureIn, CallsOf, UsageOf, BlocksOf, BlockBytes, StreamedBytes, Deltas, LiveDelta, Refused,
      NoneRefused;
    acc := new StepAccum(parse);
    var i := 0;
    while i < |script| && acc.stop.None? && acc.protocolError.None?
      invariant fresh(acc) && acc.parse == parse && acc.Live() && 0 <= i <= |script|
      invariant acc.protocolError.None? ==> acc.applied == script[..i]
      invariant acc.protocolError.Some? ==>
                  acc.stop.None? && acc.applied < script && Refused(parse, acc.applied, script[|acc.applied|]).Some?
      invariant EndsOnce(acc.applied) && NoneRefused(parse, acc.applied)
      invariant events == Deltas(parse, acc.applied)
      decreases |script| - i
    {
      EndsOnceSnoc(acc.applied, script[i]);
      if Refused(parse, acc.applied, script[i]).None? {
        NoneRefusedSnoc(parse, acc.applied, script[i]);
        DeltasStep(parse, acc.applied, script[i]);
      }
      var delta := acc.Apply(script[i]);
      if delta.Some? {
        events := events + [delta.value];
      }
      i := i + 1;
    }
  }

  /** What a run's steps add to the replay log. */
  function ReplayTrace(steps: seq<StepRecord>): seq<Entry> {
    if steps == [] then [] else
      var r := steps[|steps| - 1];
      ReplayTrace(steps[..|steps| - 1]) + [Sent(r.request)] + BindingOf(r.request, r.turn)
  }

  function AllMetered(steps: seq<StepRecord>): seq<Usage> {
    if steps == [] then [] else AllMetered(steps[..|steps| - 1]) + steps[|steps| - 1].metered
  }

  /** What a step's metering cost, at the model that was asked. */
  function PricedOf(env: Env, r: StepRecord): seq<Option<real>> {
    if r.metered == [] then [] else [env.price(r.asked.model, r.metered[0])]
  }

  function AllPriced(env: Env, steps: seq<StepRecord>): seq<Option<real>> {
    if steps == [] then []
    else AllPriced(env, steps[..|steps| - 1]) + PricedOf(env, steps[|steps| - 1])
  }

  lemma TraceSnoc(env: Env, steps: seq<StepRecord>, r: StepRecord)
    ensures ReplayTrace(steps + [r]) == ReplayTrace(steps) + ([Sent(r.request)] + BindingOf(r.request, r.turn))
    ensures AllMetered(steps + [r]) == AllMetered(steps) + r.metered
    ensures AllPriced(env, steps + [r]) == AllPriced(env, steps) + PricedOf(env, r)
    ensures RunEvents(env, steps + [r]) == RunEvents(env, steps) + ([StepStart(r.index)] + StepEvents(env, r))
  {
    hide StepEvents, PricedOf;
    assert (steps + [r])[..|steps|] == steps;
  }

  lemma NoTrace(env: Env)
    ensures ReplayTrace([]) == [] && AllMetered([]) == [] && AllPriced(env, []) == [] && RunEvents(env, []) == []
  {
  }

  lemma TraceJoin(env: Env, log: seq<Entry>, spent: seq<Usage>, costs: seq<Option<real>>,
                  steps: seq<StepRecord>, taken: seq<StepRecord>)
    requires |taken| <= 1
    ensures log + ReplayTrace(steps) + ReplayTrace(taken) == log + ReplayTrace(steps + taken)
    ensures spent + AllMetered(steps) + AllMetered(taken) == spent + AllMetered(steps + taken)
    ensures costs + AllPriced(env, steps) + AllPriced(env, taken) == costs + AllPriced(env, steps + taken)
    ensures RunEvents(env, steps) + RunEvents(env, taken) == RunEvents(env, steps + taken)
  {
    hide ReplayTrace, AllMetered, AllPriced, RunEvents, BindingOf, StepEvents, PricedOf;
    NoTrace(env);
    if taken == [] {
      assert steps + taken == steps;
    } else {
      assert taken == [taken[0]] == [] + [taken[0]];
      TraceSnoc(env, [], taken[0]);
      TraceSnoc(env, steps, taken[0]);
    }
  }

  // ----- When a run goes on, and how it ends --------------------------------------------------------------

  /** The conversation a run's steps start from, and what is fixed for all of them. */
  datatype Plan = Plan(start: Convo, manifest: Option<Text>, tools: seq<Text>)

  function StepPass(env: Env, index: nat, c: Convo): Hooked {
    HookPass(0, env.middleware, StepHook(env, index), c)
  }

  /** The conversation with the turns a step appended. */
  function AfterStep(r: StepRecord): Convo { r.asked.(messages := r.asked.messages + Appended(r)) }

  function DonePass(env: Env, r: StepRecord): Hooked {
    HookPass(0, env.middleware, StepDoneHook(env, r.index), AfterStep(r))
  }

  /**
   * A step is followed by another attempt exactly when it completed, its response was authorized and
   * granted at least one call, no call halted the batch, and on_step_done let the run continue.
   */
  ghost predicate GoesOn(env: Env, r: StepRecord) {
    && r.completed && !Unauthorized(env.parse, r.applied)
    && r.calls != [] && r.cut == |r.calls|
    && DonePass(env, r).flow.Continue?
  }

  /** The conversation the attempt with that number starts from. */
  function ConvoAt(env: Env, p: Plan, steps: seq<StepRecord>, i: nat): Convo
    requires i <= |steps|
  {
    if i == 0 then p.start else DonePass(env, steps[i - 1]).convo
  }

  /** The attempt gets as far as announcing its step. */
  predicate Opens(env: Env, index: nat, c: Convo) {
    !env.cancelled(index) && StepPass(env, index, c).flow.Continue?
  }

  /** The step asks what on_step left of the conversation, in a run that goes on up to here. */
  ghost predicate StepFollows(env: Env, p: Plan, steps: seq<StepRecord>, i: nat)
    requires i < |steps|
  {
    var r, c := steps[i], ConvoAt(env, p, steps, i);
    && r.index == i && LegalStep(env, r) && Opens(env, i, c)
    && env.registered(r.request.model) && env.cacheable(r.request)
    && r.asked == StepPass(env, i, c).convo && r.request == RequestFor(r.asked, p.manifest, p.tools)
    && (i > 0 ==> GoesOn(env, steps[i - 1]))
  }

  ghost predicate AllFollow(env: Env, p: Plan, steps: seq<StepRecord>) {
    |steps| <= DEFAULT_MAX_STEPS && forall i :: 0 <= i < |steps| ==> StepFollows(env, p, steps, i)
  }

  /** A stream that ended unfinished and unrefused because it was cancelled, or one cancelled in flight. */
  predicate WasCancelled(env: Env, r: StepRecord) {
    match env.acquire(r.index, r.request)
    case CancelledInFlight(_) => true
    case NotOpened => false
    case Ready(first, rest, ending) =>
      StopOf(r.applied).None? && r.applied == [first] + rest && ending.CancelledMidStream?
  }

  /** How a run ends after a step that is not followed by another. */
  function LastWord(env: Env, r: StepRecord): Finish {
    if !r.completed then (if WasCancelled(env, r) then Cancelled else Stopped)
    else if DonePass(env, r).flow.Continue? && !Unauthorized(env.parse, r.applied) && r.calls == [] then TurnEnded
    else Stopped
  }

  /** No provider for its model, a cache it may not use, or a binding that does not accept it. */
  predicate Unsendable(env: Env, request: Request, binding: Option<Binding>) {
    || !env.registered(request.model)
    || !env.cacheable(request)
    || (binding.Some? && !Accepts(binding.value, request))
  }

  /** How the step loop ended: at a last step, at the cap, or at an attempt that sent nothing. */
  ghost predicate Ends(env: Env, p: Plan, steps: seq<StepRecord>, binding: Option<Binding>, open: bool, finish: Finish) {
    var n := |steps|;
    if n > 0 && !GoesOn(env, steps[n - 1]) then !open && finish == LastWord(env, steps[n - 1])
    else if n >= DEFAULT_MAX_STEPS then !open && finish == StepLimit(DEFAULT_MAX_STEPS)
    else
      var c := ConvoAt(env, p, steps, n);
      var hooked := StepPass(env, n, c);
      && (Opens(env, n, c) ==> Unsendable(env, RequestFor(hooked.convo, p.manifest, p.tools), binding))
      && (open <==> Opens(env, n, c))
      && finish == if env.cancelled(n) then Cancelled else Stopped
  }

  /** The conversation a run leaves. */
  ghost predicate Leaves(env: Env, p: Plan, steps: seq<StepRecord>, c: Convo) {
    var n := |steps|;
    if n > 0 && !GoesOn(env, steps[n - 1]) then
      c == if steps[n - 1].completed then DonePass(env, steps[n - 1]).convo else AfterStep(steps[n - 1])
    else
      var last := ConvoAt(env, p, steps, n);
      c == if n >= DEFAULT_MAX_STEPS || env.cancelled(n) then last else StepPass(env, n, last).convo
  }

  /** The steps that completed, and were counted. */
  ghost predicate Counts(steps: seq<StepRecord>, total: nat) {
    && total <= |steps| <= total + 1
    && forall i :: 0 <= i < |steps| ==> (steps[i].completed <==> i < total)
  }

  lemma FollowFront(env: Env, p: Plan, steps: seq<StepRecord>, r: StepRecord)
    requires AllFollow(env, p, steps + [r])
    ensures AllFollow(env, p, steps)
  {
    hide LegalStep, Opens, StepPass, GoesOn, RequestFor, DonePass;
    var all := steps + [r];
    forall i | 0 <= i < |steps| ensures StepFollows(env, p, steps, i) {
      assert StepFollows(env, p, all, i);
      assert all[i] == steps[i] && (i > 0 ==> all[i - 1] == steps[i - 1]);
    }
  }

  lemma FollowSnoc(env: Env, p: Plan, steps: seq<StepRecord>, r: StepRecord)
    requires AllFollow(env, p, steps) && |steps| < DEFAULT_MAX_STEPS
    requires r.index == |steps| && LegalStep(env, r)
    requires env.registered(r.request.model) && env.cacheable(r.request)
    requires var c := ConvoAt(env, p, steps, |steps|);
             Opens(env, |steps|, c) && r.asked == StepPass(env, |steps|, c).convo
    requires r.request == RequestFor(r.asked, p.manifest, p.tools)
    requires steps != [] ==> GoesOn(env, steps[|steps| - 1])
    ensures AllFollow(env, p, steps + [r])
  {
    hide LegalStep, Opens, StepPass, GoesOn, RequestFor, DonePass;
    var all := steps + [r];
    forall i | 0 <= i < |all| ensures StepFollows(env, p, all, i) {
      if i < |steps| {
        assert StepFollows(env, p, steps, i);
        assert all[i] == steps[i] && (i > 0 ==> all[i - 1] == steps[i - 1]);
      } else {
        assert all[i] == r && (i > 0 ==> all[i - 1] == steps[i - 1]);
      }
    }
  }

  /** The finish of a run says how its last step ended, and the other way round. */
  lemma WhyItEnded(env: Env, p: Plan, steps: seq<StepRecord>, binding: Option<Binding>, open: bool, finish: Finish)
    requires Ends(env, p, steps, binding, open, finish)
    ensures finish.TurnEnded? <==>
            && steps != []
            && var r := steps[|steps| - 1];
               r.completed && !Unauthorized(env.parse, r.applied) && r.calls == [] && DonePass(env, r).flow.Continue?
    ensures finish.StepLimit? <==> |steps| >= DEFAULT_MAX_STEPS && GoesOn(env, steps[|steps| - 1])
    ensures finish.Cancelled? <==>
            if steps != [] && !steps[|steps| - 1].completed then WasCancelled(env, steps[|steps| - 1])
            else (steps == [] || GoesOn(env, steps[|steps| - 1])) && |steps| < DEFAULT_MAX_STEPS && env.cancelled(|steps|)
  {
    hide Unauthorized, DonePass, WasCancelled, StepPass, Opens;
  }

  /** The rebinding a turn causes, if it is signed. */
  function BindingOf(request: Request, turn: seq<AssistantContent>): seq<Entry> {
    if HasSigned(turn)
    then [Rebound(FromRequest(request).(messages := request.messages + [Assistant(turn)]))]
    else []
  }

  /** How an attempt at a step came out, seen from its record alone. */
  ghost predicate ExitsAs(env: Env, r: StepRecord, exit: Option<Finish>) {
    if r.completed then
      && (exit.None? <==> !Unauthorized(env.parse, r.applied) && r.cut == |r.calls| && r.calls != [])
      && (exit == Some(TurnEnded) <==> !Unauthorized(env.parse, r.applied) && r.calls == [])
      && (exit.Some? ==> exit.value.TurnEnded? || exit.value.Stopped?)
    else exit == Some(if WasCancelled(env, r) then Cancelled else Stopped)
  }

  /** An attempt sends the request that on_step left of the conversation, or none. */
  ghost predicate Attempted(env: Env, p: Plan, index: nat, binding: Option<Binding>, steps: seq<StepRecord>) {
    var hooked := StepPass(env, index, p.start);
    var request := RequestFor(hooked.convo, p.manifest, p.tools);
    && |steps| <= 1
    && (steps != [] ==>
          && steps[0].index == index && LegalStep(env, steps[0]) && Opens(env, index, p.start)
          && steps[0].asked == hooked.convo && steps[0].request == request
          && env.registered(request.model) && env.cacheable(request))
    && (steps == [] && Opens(env, index, p.start) ==> Unsendable(env, request, binding))
  }

  lemma NoSteps(env: Env, p: Plan)
    ensures AllFollow(env, p, []) && Counts([], 0) && ConvoAt(env, p, [], 0) == p.start
  {
  }

  /** What one more turn of the loop adds to the steps so far. */
  lemma TurnJoins(env: Env, p: Plan, before: seq<StepRecord>, taken: seq<StepRecord>, binding: Option<Binding>,
                  closed: bool, exit: Option<Finish>)
    requires AllFollow(env, p, before) && |before| < DEFAULT_MAX_STEPS && Counts(before, |before|)
    requires before != [] ==> GoesOn(env, before[|before| - 1])
    requires Attempted(env, p.(start := ConvoAt(env, p, before, |before|)), |before|, binding, taken)
    requires if taken == [] then !closed && exit.Some?
             else closed == taken[0].completed && (exit.None? <==> GoesOn(env, taken[0]))
    ensures |taken| <= 1 && AllFollow(env, p, before + taken)
    ensures Counts(before + taken, if closed then |before| + 1 else |before|)
    ensures exit.None? ==>
              && closed && |before + taken| == |before| + 1 && GoesOn(env, (before + taken)[|before|])
              && ConvoAt(env, p, before + taken, |before| + 1) == DonePass(env, taken[0]).convo
  {
    hide LegalStep, Opens, StepPass, RequestFor, DonePass, AllFollow, Unauthorized;
    if taken == [] {
      assert before + taken == before;
    } else {
      assert taken == [taken[0]];
      FollowSnoc(env, p, before, taken[0]);
      CountSnoc(before, taken[0]);
    }
  }

  lemma CountSnoc(before: seq<StepRecord>, r: StepRecord)
    requires Counts(before, |before|)
    ensures Counts(before + [r], if r.completed then |before| + 1 else |before|)
  {
  }

  lemma RunEnds(env: Env, p: Plan, before: seq<StepRecord>, taken: seq<StepRecord>, binding: Option<Binding>,
                closed: bool, finish: Finish, c: Convo)
    requires |before| < DEFAULT_MAX_STEPS && (before != [] ==> GoesOn(env, before[|before| - 1]))
    requires Attempted(env, p.(start := ConvoAt(env, p, before, |before|)), |before|, binding, taken)
    requires taken != [] ==>
               && closed == taken[0].completed && !GoesOn(env, taken[0]) && finish == LastWord(env, taken[0])
               && c == if closed then DonePass(env, taken[0]).convo else AfterStep(taken[0])
    requires var start := ConvoAt(env, p, before, |before|);
             taken == [] ==>
               && finish == (if env.cancelled(|before|) then Cancelled else Stopped)
               && c == if env.cancelled(|before|) then start else StepPass(env, |before|, start).convo
    ensures var open := taken == [] && Opens(env, |before|, ConvoAt(env, p, before, |before|));
            forall after :: (taken == [] ==> after == binding) ==> Ends(env, p, before + taken, after, open, finish)
    ensures Leaves(env, p, before + taken, c)
  {
    hide LegalStep, StepPass, RequestFor, DonePass, AfterStep, GoesOn, LastWord;
    if taken == [] {
      assert before + taken == before;
    } else {
      assert (before + taken)[|before|] == taken[0];
    }
  }

  lemma CapEnds(env: Env, p: Plan, steps: seq<StepRecord>, binding: Option<Binding>, c: Convo)
    requires |steps| == DEFAULT_MAX_STEPS && GoesOn(env, steps[|steps| - 1]) && c == ConvoAt(env, p, steps, |steps|)
    ensures Ends(env, p, steps, binding, false, StepLimit(DEFAULT_MAX_STEPS)) && Leaves(env, p, steps, c)
  {
    hide GoesOn, ConvoAt, StepPass;
  }

  /** An interrupted step shows what was streamed and nothing more. */
  lemma EventsOfAbandoned(env: Env, r: StepRecord)
    requires !r.completed && r.finished == []
    ensures StepEvents(env, r) == Deltas(env.parse, r.applied)
  {
    hide Deltas;
  }

  lemma EventsGrouped(env: Env, r: StepRecord)
    ensures StepEvents(env, r) == Deltas(env.parse, r.applied) + (r.finished + Closing(env, r))
  {
    hide Deltas, Closing;
  }

  lemma CutOf(env: Env, r: StepRecord)
    requires DispatchedExactly(env, r) && r.completed
    ensures r.cut <= |r.calls| && (Unauthorized(env.parse, r.applied) ==> r.calls == [])
  {
    hide StrictlyIncreasing, Cleared, Unauthorized, RequestedCalls;
  }

  /** The assembled turn holds the blocks, or what was said and then the calls. */
  lemma TurnWorded(parse: Parser, r: StepRecord, reasoning: Text, text: Text, complete: seq<AssistantContent>)
    requires r.completed && text == SaidText(r.applied)
    requires reasoning == if Unauthorized(parse, r.applied) then "" else SaidReasoning(r.applied)
    requires complete == if Unauthorized(parse, r.applied) then [] else InOrder(BlocksOf(r.applied))
    requires r.turn == AssembleTurn(text, reasoning, r.calls, complete)
    ensures Worded(parse, r)
  {
    hide SaidText, SaidReasoning, Unauthorized, BlocksOf, InOrder;
    BlocksThere(BlocksOf(r.applied));
    if !InBlocks(parse, r) {
      ToolUsesAt(r.calls);
      var spoken := Spoken(reasoning, text);
      assert r.turn == spoken + ToolUses(r.calls);
    }
  }

  lemma BlocksThere(blocks: map<nat, AssistantContent>)
    ensures InOrder(blocks) == [] <==> blocks == map[]
  {
  }

  lemma {:induction false} ToolUsesAt(calls: seq<ParsedCall>)
    ensures |ToolUses(calls)| == |calls|
    ensures forall j :: 0 <= j < |calls| ==> ToolUses(calls)[j] == ToolUse(calls[j].id, calls[j].name, calls[j].args)
  {
    if calls != [] {
      ToolUsesAt(calls[1..]);
    }
  }

  /** The accumulator of a response that completed, as the rest of the step reads it. */
  ghost predicate Settled(parse: Parser, acc: StepAccum)
    reads acc
  {
    && Completes(parse, acc.applied)
    && acc.stop == StopOf(acc.applied)
    && acc.toolCalls == RequestedCalls(parse, acc.applied)
    && acc.completeBlocks == BlocksOf(acc.applied)
    && acc.stepUsage == UsageOf(acc.applied)
    && acc.text == SaidText(acc.applied) && acc.reasoning == SaidReasoning(acc.applied)
  }

  /** The calls and blocks of a response, as its terminal event leaves them. */
  lemma WhatIsGranted(parse: Parser, es: seq<StreamEvent>)
    requires StopOf(es).Some?
    ensures var calls := RequestedCalls(parse, es);
            var failure := TerminalFailureOf(StopOf(es).value, calls != []);
            && (failure.Some? <==> Unauthorized(parse, es))
            && GrantedCalls(parse, es) == (if failure.Some? then [] else calls)
            && (failure.None? && InOrder(BlocksOf(es)) != [] ==> calls == CallsIn(InOrder(BlocksOf(es))))
  {
    hide TerminalFailureOf, StopOf, CallsOf, BlocksOf, CallsIn;
    NoBlocksInOrder();
  }

  lemma NoBlocksInOrder()
    ensures InOrder(map[]) == []
  {
  }

  /** The skills were listed before, need no listing, or can be listed. */
  predicate SkillsReady(env: Env, skills: seq<Text>) { skills != [] || env.skills != Some(None) }

  /** The skills are listed once, when there are none yet. */
  function SkillsAfter(env: Env, skills: seq<Text>): seq<Text> {
    if skills == [] && env.skills.Some? && env.skills.value.Some? then env.skills.value.value else skills
  }

  /** Their manifest is rendered once. */
  function ManifestAfter(env: Env, skills: seq<Text>, manifest: Option<Text>): Option<Text> {
    if skills != [] && manifest.None? then Some(env.manifest(skills)) else manifest
  }

  /** How many middlewares are called, up to the first that does not continue. */
  function HookCalls(i: nat, count: nat, hook: (nat, Convo) -> Hooked, c: Convo): (n: nat)
    ensures i <= count ==> n <= count - i
    decreases count - i
  {
    if i >= count then 0
    else if hook(i, c).flow.Continue? then 1 + HookCalls(i + 1, count, hook, hook(i, c).convo)
    else 1
  }

  /** The events of a run: those of its steps, the announcement of one never sent, and the terminal event. */
  ghost predicate Concludes(env: Env, p: Plan, steps: seq<StepRecord>, binding: Option<Binding>, left: Convo,
                            events: seq<AgentEvent>, usage: Usage, cost: Option<real>)
  {
    && events != []
    && var last := events[|events| - 1];
       && last.Done? && last.usage == usage && last.cost == cost
       && AllFollow(env, p, steps) && Counts(steps, last.steps) && Leaves(env, p, steps, left)
       && exists open: bool ::
            && Ends(env, p, steps, binding, open, last.finish)
            && events == RunEvents(env, steps) + (if open then [StepStart(|steps|)] else []) + [last]
  }

  class Agent {
    var tools: seq<Text>
    var skills: seq<Text>
    var manifest: Option<Text>
    var messages: seq<Message>
    var model: Text
    var system: Option<Text>
    var binding: Option<Binding>
    var usage: Usage
    var cost: Option<real>

    ghost var log: seq<Entry>
    ghost var metered: seq<Usage>
    ghost var priced: seq<Option<real>>
    ghost var hooks: seq<Hook>

    /** What holds between any two runs, and at every point of every run. */
    ghost predicate Valid()
      reads this
    {
      && Disciplined(log) && binding == Current(log)
      && usage == MergeAll(NO_USAGE, metered)
      && cost == CostAll(Some(0.0), priced)
      && |priced| == |metered|
    }

    constructor ()
      ensures Valid() && messages == [] && binding.None? && metered == [] && log == [] && hooks == []
    {
      tools, skills, manifest := [], [], None;
      messages, model, system, binding := [], "", None, None;
      usage, cost := NO_USAGE, Some(0.0);
      log, metered, priced, hooks := [], [], [], [];
    }

    /** Between runs the host may reseed or reconfigure the agent at will. */
    method Configure(messages: seq<Message>, model: Text, system: Option<Text>, tools: seq<Text>)
      requires Valid()
      modifies this`messages, this`model, this`system, this`tools
      ensures Valid()
      ensures this.messages == messages && this.model == model && this.system == system && this.tools == tools
    {
      this.messages, this.model, this.system, this.tools := messages, model, system, tools;
    }

    function Conversation(): Convo
      reads this`messages, this`model, this`system
    {
      Convo(messages, model, system)
    }

    function BuildRequest(runTools: seq<Text>): Request
      reads this`model, this`system, this`manifest, this`messages
    {
      RequestFor(Conversation(), manifest, runTools)
    }

    /** Accumulated cost, unknown if a metered request was or the current model is unpriced. */
    function CurrentCost(env: Env): Option<real>
      reads this`cost, this`model
    {
      if env.listed(model) then cost else None
    }

    method RecordUsage(env: Env, u: Usage) returns (stepCost: Option<real>)
      requires Valid()
      modifies this`usage, this`cost, this`metered, this`priced
      ensures Valid()
      ensures metered == old(metered) + [u] && priced == old(priced) + [stepCost]
      ensures stepCost == env.price(model, u)
    {
      stepCost := env.price(model, u);
      cost := AddCost(cost, stepCost);
      usage := Merge(usage, u);
      metered, priced := metered + [u], priced + [stepCost];
      assert metered[..|metered| - 1] == old(metered);
      assert priced[..|priced| - 1] == old(priced);
    }

    /** Keeps interrupted text and usage, never an uncompleted tool call or signed block. */
    method RecordPartial(env: Env, acc: StepAccum) returns (turn: seq<AssistantContent>)
      requires Valid()
      modifies this`usage, this`cost, this`metered, this`priced, this`messages
      ensures Valid()
      ensures metered == old(metered) + [acc.PartialUsage()]
      ensures priced == old(priced) + [env.price(model, acc.PartialUsage())]
      ensures turn == Spoken("", acc.text) && UseIds(turn) == [] && !HasSigned(turn)
      ensures messages == old(messages) + (if turn != [] then [Assistant(turn)] else [])
    {
      var _ := RecordUsage(env, acc.PartialUsage());
      turn := [];
      if acc.text != "" {
        turn := [Said(acc.text)];
        messages := messages + [Assistant(turn)];
        assert turn[1..] == [];
      }
    }

    /** Calls every middleware until one does not continue. */
    method RunHooks(count: nat, hook: (nat, Convo) -> Hooked) returns (stopped: bool)
      modifies this`messages, this`model, this`system
      ensures var h := HookPass(0, count, hook, old(Conversation()));
              Conversation() == h.convo && (stopped <==> !h.flow.Continue?)
      ensures Harmless(hook) && WellPaired(old(messages)) ==> WellPaired(messages)
    {
      hide WellPaired;
      for i := 0 to count
        invariant HookPass(i, count, hook, Conversation()) == HookPass(0, count, hook, old(Conversation()))
        invariant Harmless(hook) && WellPaired(old(messages)) ==> WellPaired(messages)
      {
        var reply := hook(i, Conversation());
        messages, model, system := reply.convo.messages, reply.convo.model, reply.convo.system;
        if !reply.flow.Continue? {
          return true;
        }
      }
      return false;
    }

    method RunOnStart(env: Env) returns (started: nat, stopped: bool)
      modifies this`messages, this`model, this`system, this`hooks
      ensures started == HookCalls(0, env.middleware, env.onStart, old(Conversation()))
      ensures hooks == old(hooks) + Begun(started)
      ensures var h := HookPass(0, env.middleware, env.onStart, old(Conversation()));
              Conversation() == h.convo && (stopped <==> !h.flow.Continue?)
      ensures Harmless(env.onStart) && WellPaired(old(messages)) ==> WellPaired(messages)
    {
      hide WellPaired;
      started := 0;
      for i := 0 to env.middleware
        invariant started == i
        invariant HookCalls(0, env.middleware, env.onStart, old(Conversation()))
                  == i + HookCalls(i, env.middleware, env.onStart, Conversation())
        invariant hooks == old(hooks) + Begun(i)
        invariant HookPass(i, env.middleware, env.onStart, Conversation())
                  == HookPass(0, env.middleware, env.onStart, old(Conversation()))
        invariant Harmless(env.onStart) && WellPaired(old(messages)) ==> WellPaired(messages)
      {
        started := started + 1;
        hooks := hooks + [OnStart(i)];
        var reply := env.onStart(i, Conversation());
        messages, model, system := reply.convo.messages, reply.convo.model, reply.convo.system;
        if !reply.flow.Continue? {
          return started, true;
        }
      }
      stopped := false;
    }

    method RunOnFinish(started: nat)
      modifies this`hooks
      ensures hooks == old(hooks) + Ended(started)
    {
      for i := 0 to started
        invariant hooks == old(hooks) + Ended(i)
      {
        hooks := hooks + [OnFinish(i)];
      }
    }

    /** Loading signed history is a provenance boundary: bind its context once. */
    method BindLoadedHistory(runTools: seq<Text>) returns (ghost loaded: seq<Entry>)
      requires Valid()
      modifies this`binding, this`log
      ensures Valid() && log == old(log) + loaded
      ensures loaded == if old(binding).None? && HasSignedHistory(messages)
                        then [Loaded(FromRequest(BuildRequest(runTools)))] else []
      ensures HasSignedHistory(messages) ==> binding.Some?
    {
      loaded := [];
      if binding.None? && HasSignedHistory(messages) {
        binding := Some(FromRequest(BuildRequest(runTools)));
        loaded := [Loaded(binding.value)];
        Append(log, Loaded(binding.value));
        log := log + loaded;
      }
    }

    /** Runs the granted calls of a completed response and answers every one of them. */
    method RunTools(env: Env, index: nat, calls: seq<ParsedCall>)
      returns (halted: bool, ran: bool, results: seq<UserContent>, events: seq<AgentEvent>,
               ghost cut: nat, ghost dispatched: seq<nat>, ghost outcomes: seq<ToolOutcome>)
      modifies this`messages
      ensures messages == old(messages) + (if results != [] then [User(results)] else [])
      ensures IsCut(GateOf(env, index), calls, cut) && (halted <==> cut < |calls|) && (ran <==> cut > 0)
      ensures StrictlyIncreasing(dispatched)
      ensures forall j: nat :: j in dispatched <==> Cleared(GateOf(env, index), calls, j)
      ensures cut <= |Ids(calls)| && ResultIds(results) == AnsweredIds(Ids(calls), cut)
      ensures forall k :: 0 <= k < |results| ==> results[k].ToolResult?
      ensures calls == [] ==> results == []
      ensures |outcomes| == cut <= |calls| && cut <= |results| && Announces(events, results, outcomes)
      ensures forall j :: 0 <= j < cut ==> Settles(GateOf(env, index), j, calls[j], outcomes[j])
      ensures forall j :: 0 <= j < cut ==> Tells(results[j], calls[j].id, outcomes[j])
      ensures forall k :: cut <= k < |results| ==> IsCancelledResult(results[k])
    {
      hide DeniedWith, Tells, IsCancelledResult, Missing, ResultIds;
      var gate := GateOf(env, index);
      var plans, stop := ApprovalPass(gate, calls);
      var settled, run := DispatchPlans(gate, calls, plans);
      forall j: nat ensures j in run <==> Cleared(gate, calls, j) {
        if j < |plans| {
          assert plans[j].Allow? || plans[j].Deny?;
        }
      }
      results, events := CollectResults(Ids(calls), settled, stop);
      ResultIdsLength(results);
      if results != [] {
        messages := messages + [User(results)];
      }
      halted, ran, cut, dispatched, outcomes := stop, |settled| > 0, |plans|, run, settled;
    }

    /** Appends the assistant turn; a signed one becomes the new bound prefix. */
    method PushTurn(request: Request, turn: seq<AssistantContent>)
      requires Valid()
      requires log != [] && log[|log| - 1] == Sent(request) && request.messages == messages
      modifies this`messages, this`binding, this`log
      ensures Valid()
      ensures messages == request.messages + (if turn != [] then [Assistant(turn)] else [])
      ensures log == old(log) + BindingOf(request, turn)
    {
      if turn != [] {
        messages := messages + [Assistant(turn)];
      }
      if HasSigned(turn) {
        var bound := FromRequest(request).(messages := messages);
        Append(log, Rebound(bound));
        binding, log := Some(bound), log + [Rebound(bound)];
      }
    }

    /** A response that completed: append its turn, bind it if signed, meter it, run its tools. */
    method FinishStep(env: Env, index: nat, request: Request, acc: StepAccum)
      returns (halted: bool, failed: bool, ran: bool, events: seq<AgentEvent>, ghost r: StepRecord)
      requires Valid()
      requires log != [] && log[|log| - 1] == Sent(request) && request.messages == messages
      requires Settled(env.parse, acc)
      modifies this`messages, this`binding, this`log, this`usage, this`cost, this`metered, this`priced
      ensures Valid()
      ensures r.index == index && r.request == request && r.asked == old(Conversation())
      ensures r.applied == acc.applied && r.completed
      ensures r.metered == [UsageOf(acc.applied)] && metered == old(metered) + r.metered
      ensures priced == old(priced) + PricedOf(env, r)
      ensures DispatchedExactly(env, r) && TurnsMatch(r) && Worded(env.parse, r) && Answered(GateOf(env, index), r)
      ensures messages == request.messages + Appended(r)
      ensures log == old(log) + BindingOf(request, r.turn)
      ensures halted <==> r.cut < |r.calls|
      ensures failed <==> Unauthorized(env.parse, acc.applied)
      ensures ran <==> r.cut > 0
      ensures events == r.finished + Closing(env, r)
    {
      hide TextOf, ReasoningOf, SignatureIn, CallsOf, UsageOf, StopOf, BlocksOf, Ascending, InOrder, CallsIn,
        Disciplined, Current, MergeAll, CostAll, BlocksMatchCalls, Missing, IsCut, Cleared, StrictlyIncreasing,
        HasSigned, UseIds, ResultIds, Ids, AnsweredIds, ToolUses, Accepted, TerminalFailureOf, RequestedCalls,
        Unauthorized, GrantedCalls, AssembleTurn, Appended, BindingOf, SaidText, SaidReasoning, Worded, Settles, Tells,
        Announces, IsCancelledResult;
      WhatIsGranted(env.parse, acc.applied);
      var failure := TerminalFailureOf(acc.stop.value, acc.toolCalls != []);
      var calls := if failure.Some? then [] else acc.toolCalls;
      var complete := if failure.Some? then [] else InOrder(acc.completeBlocks);
      var reasoning := if failure.Some? then "" else acc.reasoning;
      assert complete != [] ==> calls == CallsIn(complete);
      var turn := AssembleTurn(acc.text, reasoning, calls, complete);
      TurnIds(acc.text, reasoning, calls, complete);
      PushTurn(request, turn);
      var stepCost := RecordUsage(env, acc.stepUsage);
      var results, said;
      ghost var cut, dispatched, outcomes;
      halted, ran, results, said, cut, dispatched, outcomes := RunTools(env, index, calls);
      events := said + [StepEnd(index, acc.stepUsage, stepCost)];
      failed := failure.Some?;
      r := StepRecord(index, old(Conversation()), request, acc.applied, true, calls, cut, dispatched, outcomes, turn,
                      results, said, [acc.stepUsage]);
      AppendedTurns(request.messages, r);
      TurnWorded(env.parse, r, reasoning, acc.text, complete);
    }

    /** A response cut short: keep its text and its cost, run nothing. */
    method AbandonStep(env: Env, index: nat, request: Request, acc: StepAccum) returns (ghost r: StepRecord)
      requires Valid() && request.messages == messages && acc.stepUsage == UsageOf(acc.applied)
      requires acc.text == SaidText(acc.applied) && acc.reasoning == SaidReasoning(acc.applied)
      modifies this`messages, this`usage, this`cost, this`metered, this`priced
      ensures Valid()
      ensures r.index == index && r.request == request && r.asked == old(Conversation())
      ensures r.applied == acc.applied && !r.completed && r.finished == []
      ensures StreamMetered(r) && metered == old(metered) + r.metered && priced == old(priced) + PricedOf(env, r)
      ensures DispatchedExactly(env, r) && TurnsMatch(r) && !HasSigned(r.turn)
      ensures Worded(env.parse, r) && Answered(GateOf(env, index), r)
      ensures messages == request.messages + Appended(r)
    {
      hide UsageOf, SaidText, SaidReasoning, Unauthorized;
      var turn := RecordPartial(env, acc);
      r := StepRecord(index, old(Conversation()), request, acc.applied, false, [], 0, [], [], turn, [], [],
                      [acc.PartialUsage()]);
      assert Missing([], []) == [];
    }

    /** Reads a response to its end and acts on it. */
    method Receive(env: Env, index: nat, request: Request, script: seq<StreamEvent>, ending: Ending)
      returns (completed: bool, exit: Option<Finish>, events: seq<AgentEvent>, ghost r: StepRecord)
      requires Valid()
      requires log != [] && log[|log| - 1] == Sent(request) && request.messages == messages
      modifies this`messages, this`binding, this`log, this`usage, this`cost, this`metered, this`priced
      ensures Valid()
      ensures r.index == index && r.request == request && r.asked == old(Conversation()) && r.completed == completed
      ensures StreamRead(env.parse, r.applied, script) && (r.completed <==> Completes(env.parse, r.applied))
      ensures StreamMetered(r) && DispatchedExactly(env, r) && TurnsMatch(r)
      ensures Worded(env.parse, r) && Answered(GateOf(env, index), r)
      ensures metered == old(metered) + r.metered && priced == old(priced) + PricedOf(env, r)
      ensures messages == request.messages + Appended(r)
      ensures log == old(log) + BindingOf(request, r.turn)
      ensures events == StepEvents(env, r)
      ensures completed ==>
                && (exit.None? <==> !Unauthorized(env.parse, r.applied) && r.cut == |r.calls| && r.calls != [])
                && (exit == Some(TurnEnded) <==> !Unauthorized(env.parse, r.applied) && r.calls == [])
                && (exit.Some? ==> exit.value.TurnEnded? || exit.value.Stopped?)
      ensures !completed ==>
                exit == Some(if StopOf(r.applied).None? && r.applied == script && ending.CancelledMidStream?
                             then Cancelled else Stopped)
    {
      hide TextOf, ReasoningOf, SignatureIn, CallsOf, UsageOf, BlocksOf, Ascending, InOrder, CallsIn, BlockBytes,
        StreamedBytes, Disciplined, Current, MergeAll, CostAll, BlocksMatchCalls, Missing, Refused, EndsOnce,
        UseIds, ResultIds, Ids, AnsweredIds, HasSigned, IsCut, Cleared, StrictlyIncreasing, DispatchedExactly,
        TurnsMatch, Appended, Unauthorized, Worded, Answered, Deltas, PartialOutput, PricedOf;
      var acc;
      acc, events := Drain(env.parse, script);
      acc.CaptureCompleteText();
      completed := false;
      if acc.stop.None? && acc.protocolError.None? && !ending.RanOut? {
        r := AbandonStep(env, index, request, acc);
        exit := Some(if ending.CancelledMidStream? then Cancelled else Stopped);
        EventsOfAbandoned(env, r);
        return;
      }
      var rejected := acc.ValidateBlocks();
      if rejected.Some? || acc.stop.None? {
        r := AbandonStep(env, index, request, acc);
        exit := Some(Stopped);
        EventsOfAbandoned(env, r);
        return;
      }
      completed := true;
      var halted, failed, ran, more;
      halted, failed, ran, more, r := FinishStep(env, index, request, acc);
      EventsGrouped(env, r);
      events := events + more;
      exit := if halted || failed then Some(Stopped) else if !ran then Some(TurnEnded) else None;
      CutOf(env, r);
    }

    /** Sends one request and deals with whatever comes back. */
    method Step(env: Env, index: nat, runTools: seq<Text>)
      returns (completed: bool, exit: Option<Finish>, events: seq<AgentEvent>, ghost r: StepRecord)
      requires Valid()
      requires binding.Some? ==> Accepts(binding.value, BuildRequest(runTools))
      modifies this`messages, this`binding, this`log, this`usage, this`cost, this`metered, this`priced
      ensures Valid()
      ensures r.index == index && r.request == old(BuildRequest(runTools)) && r.asked == old(Conversation())
      ensures r.completed == completed && LegalStep(env, r)
      ensures metered == old(metered) + r.metered && priced == old(priced) + PricedOf(env, r)
      ensures Conversation() == AfterStep(r)
      ensures log == old(log) + [Sent(r.request)] + BindingOf(r.request, r.turn)
      ensures events == StepEvents(env, r)
      ensures ExitsAs(env, r, exit)
      ensures WellPaired(old(messages)) ==> WellPaired(messages)
    {
      hide Disciplined, MergeAll, CostAll, DispatchedExactly, TurnsMatch, Completes, StreamRead, StreamMetered, WellPaired,
        Worded, Answered, Unauthorized, StopOf, StepEvents;
      var request := BuildRequest(runTools);
      Append(log, Sent(request));
      log := log + [Sent(request)];
      completed, events := false, [];
      match env.acquire(index, request)
      case CancelledInFlight(tokens) =>
        var spent := NO_USAGE.(input := tokens);
        var _ := RecordUsage(env, spent);
        r := NothingStreamed(env, index, old(Conversation()), request, [spent]);
        exit := Some(Cancelled);
      case NotOpened =>
        r := NothingStreamed(env, index, old(Conversation()), request, []);
        exit := Some(Stopped);
      case Ready(first, rest, ending) =>
        completed, exit, events, r := Receive(env, index, request, [first] + rest, ending);
        if WellPaired(request.messages) {
          StepKeepsPairing(env, r, request.messages);
        }
    }

    /**
     * One attempt at a step: on_step, the announcement, the checks, the request.  `steps` holds
     * the request handed to the provider, if the attempt got that far.
     */
    method Attempt(env: Env, index: nat, runTools: seq<Text>)
      returns (closed: bool, exit: Option<Finish>, events: seq<AgentEvent>, ghost steps: seq<StepRecord>)
      requires Valid()
      modifies this`messages, this`model, this`system, this`binding, this`log,
               this`usage, this`cost, this`metered, this`priced
      ensures Valid()
      ensures log == old(log) + ReplayTrace(steps) && metered == old(metered) + AllMetered(steps)
      ensures priced == old(priced) + AllPriced(env, steps)
      ensures Attempted(env, Plan(old(Conversation()), manifest, runTools), index, old(binding), steps)
      ensures steps != [] ==> ExitsAs(env, steps[0], exit) && closed == steps[0].completed && Conversation() == AfterStep(steps[0])
      ensures steps == [] ==>
                && !closed && exit == Some(if env.cancelled(index) then Cancelled else Stopped) && binding == old(binding)
                && Conversation() == if env.cancelled(index) then old(Conversation())
                                     else StepPass(env, index, old(Conversation())).convo
      ensures events == RunEvents(env, steps) + (if steps == [] && Opens(env, index, old(Conversation()))
                                                 then [StepStart(index)] else [])
      ensures Harmless(StepHook(env, index)) && WellPaired(old(messages)) ==> WellPaired(messages)
    {
      hide Disciplined, Current, MergeAll, CostAll, LegalStep, BindingOf, Accepts, WellPaired, Harmless,
        HookPass, StepHook, SystemPrompt, UseIds, ResultIds, ExitsAs, AfterStep, StepEvents, PricedOf, AllPriced, RunEvents,
        ReplayTrace, AllMetered;
      closed, exit, events, steps := false, Some(Stopped), [], [];
      NoTrace(env);
      if env.cancelled(index) {
        exit := Some(Cancelled);
        return;
      }
      var stopped := RunHooks(env.middleware, StepHook(env, index));
      if stopped {
        return;
      }
      events := [StepStart(index)];
      var request := BuildRequest(runTools);
      if !env.registered(model) || !env.cacheable(request)
         || (binding.Some? && !Accepts(binding.value, request))
      {
        return;
      }
      ghost var r;
      var more;
      closed, exit, more, r := Step(env, index, runTools);
      TraceSnoc(env, [], r);
      steps := [] + [r];
      events := events + more;
    }

    /** One turn of the loop: an attempt and, if the step finished, on_step_done. */
    method Turn(env: Env, index: nat, runTools: seq<Text>)
      returns (closed: bool, exit: Option<Finish>, events: seq<AgentEvent>, ghost steps: seq<StepRecord>)
      requires Valid()
      modifies this`messages, this`model, this`system, this`binding, this`log,
               this`usage, this`cost, this`metered, this`priced
      ensures Valid()
      ensures log == old(log) + ReplayTrace(steps) && metered == old(metered) + AllMetered(steps)
      ensures priced == old(priced) + AllPriced(env, steps)
      ensures Attempted(env, Plan(old(Conversation()), manifest, runTools), index, old(binding), steps)
      ensures steps != [] ==>
                && closed == steps[0].completed
                && (exit.None? <==> GoesOn(env, steps[0])) && (exit.Some? ==> exit.value == LastWord(env, steps[0]))
                && Conversation() == if closed then DonePass(env, steps[0]).convo else AfterStep(steps[0])
      ensures steps == [] ==>
                && !closed && exit == Some(if env.cancelled(index) then Cancelled else Stopped) && binding == old(binding)
                && Conversation() == if env.cancelled(index) then old(Conversation())
                                     else StepPass(env, index, old(Conversation())).convo
      ensures events == RunEvents(env, steps) + (if steps == [] && Opens(env, index, old(Conversation()))
                                                 then [StepStart(index)] else [])
      ensures KeepsPairing(env) && WellPaired(old(messages)) ==> WellPaired(messages)
    {
      hide Disciplined, Current, MergeAll, CostAll, LegalStep, WellPaired, Harmless, HookPass, Appended,
        StepHook, StepDoneHook, RequestFor, ReplayTrace, AllMetered, AllPriced, RunEvents, Unauthorized, WasCancelled;
      closed, exit, events, steps := Attempt(env, index, runTools);
      if closed {
        var stopped := RunHooks(env.middleware, StepDoneHook(env, index));
        if stopped {
          exit := Some(Stopped);
        }
      }
    }

    /** The step loop, with its default cap. */
    method RunSteps(env: Env, runTools: seq<Text>)
      returns (total: nat, finish: Finish, events: seq<AgentEvent>, ghost steps: seq<StepRecord>, ghost open: bool)
      requires Valid()
      modifies this`messages, this`model, this`system, this`binding, this`log,
               this`usage, this`cost, this`metered, this`priced
      ensures Valid()
      ensures log == old(log) + ReplayTrace(steps) && metered == old(metered) + AllMetered(steps)
      ensures priced == old(priced) + AllPriced(env, steps)
      ensures var p := Plan(old(Conversation()), manifest, runTools);
              && AllFollow(env, p, steps) && Counts(steps, total)
              && Ends(env, p, steps, binding, open, finish) && Leaves(env, p, steps, Conversation())
      ensures events == RunEvents(env, steps) + (if open then [StepStart(|steps|)] else [])
      ensures KeepsPairing(env) && WellPaired(old(messages)) ==> WellPaired(messages)
    {
      hide Disciplined, Current, MergeAll, CostAll, ReplayTrace, AllMetered, AllPriced, RunEvents, WellPaired,
        KeepsPairing, AllFollow, LegalStep, Harmless, HookPass, Attempted, GoesOn, LastWord, DonePass, StepPass, AfterStep, Opens,
        Ends, Leaves, ConvoAt;
      total, events, steps := 0, [], [];
      ghost var p := Plan(Conversation(), manifest, runTools);
      NoTrace(env);
      NoSteps(env, p);
      while true
        invariant Valid() && |steps| == total < DEFAULT_MAX_STEPS && Counts(steps, total) && AllFollow(env, p, steps)
        invariant steps != [] ==> GoesOn(env, steps[total - 1])
        invariant Conversation() == ConvoAt(env, p, steps, total) && manifest == p.manifest
        invariant log == old(log) + ReplayTrace(steps) && metered == old(metered) + AllMetered(steps)
        invariant priced == old(priced) + AllPriced(env, steps)
        invariant events == RunEvents(env, steps)
        invariant KeepsPairing(env) && WellPaired(old(messages)) ==> WellPaired(messages)
        decreases DEFAULT_MAX_STEPS - total
      {
        ghost var taken, before, bound := [], steps, binding;
        var closed, exit, more;
        closed, exit, more, taken := Turn(env, total, runTools);
        TurnJoins(env, p, before, taken, bound, closed, exit);
        TraceJoin(env, old(log), old(metered), old(priced), steps, taken);
        steps, events := steps + taken, events + more;
        open := taken == [] && Opens(env, total, ConvoAt(env, p, before, |before|));
        if closed {
          total := total + 1;
        }
        if exit.Some? {
          finish := exit.value;
          RunEnds(env, p, before, taken, bound, closed, exit.value, Conversation());
          break;
        }
        if total >= DEFAULT_MAX_STEPS {
          finish := StepLimit(DEFAULT_MAX_STEPS);
          CapEnds(env, p, steps, binding, Conversation());
          break;
        }
      }
    }

    /** Lists the skills once and renders their manifest once. */
    method PrepareSkills(env: Env) returns (ok: bool)
      modifies this`skills, this`manifest
      ensures ok <==> !(old(skills) == [] && env.skills == Some(None))
      ensures skills == if old(skills) == [] && env.skills.Some? && env.skills.value.Some?
                        then env.skills.value.value else old(skills)
      ensures manifest == ManifestAfter(env, skills, old(manifest))
    {
      if skills == [] && env.skills.Some? {
        if env.skills.value.None? {
          return false;
        }
        skills := env.skills.value.value;
      }
      if skills != [] && manifest.None? {
        manifest := Some(env.manifest(skills));
      }
      return true;
    }

    /** Everything before the step loop: skills, on_start, the provenance boundary. */
    method Prelude(env: Env)
      returns (started: nat, go: bool, runTools: seq<Text>, ghost loaded: seq<Entry>)
      requires Valid()
      modifies this`skills, this`manifest, this`messages, this`model, this`system, this`hooks, this`binding, this`log
      ensures Valid()
      ensures log == old(log) + loaded
      ensures loaded == if go && old(binding).None? && HasSignedHistory(messages)
                        then [Loaded(FromRequest(BuildRequest(runTools)))] else []
      ensures hooks == old(hooks) + Begun(started)
      ensures var ready, pass := SkillsReady(env, old(skills)), HookPass(0, env.middleware, env.onStart, old(Conversation()));
              && (go <==> ready && pass.flow.Continue?)
              && started == (if ready then HookCalls(0, env.middleware, env.onStart, old(Conversation())) else 0)
              && Conversation() == (if ready then pass.convo else old(Conversation()))
              && (ready ==> runTools == tools + (if skills != [] then SKILL_TOOLS else []))
      ensures skills == SkillsAfter(env, old(skills)) && manifest == ManifestAfter(env, skills, old(manifest))
      ensures go && HasSignedHistory(messages) ==> binding.Some?
      ensures Harmless(env.onStart) && WellPaired(old(messages)) ==> WellPaired(messages)
    {
      hide Disciplined, MergeAll, CostAll, HasSignedHistory, WellPaired, Harmless, HookPass, HookCalls, ManifestAfter, HasSigned;
      started, go, runTools, loaded := 0, false, [], [];
      var ready := PrepareSkills(env);
      if ready {
        runTools := tools + (if skills != [] then SKILL_TOOLS else []);
        var stopped;
        started, stopped := RunOnStart(env);
        go := !stopped;
        if go {
          loaded := BindLoadedHistory(runTools);
        }
      }
    }

    /** One run: the prelude, the step loop, on_finish, and the terminal event. */
    method Run(env: Env)
      returns (events: seq<AgentEvent>, ghost steps: seq<StepRecord>, ghost loaded: seq<Entry>, ghost started: nat)
      requires Valid()
      modifies this
      ensures Valid() && tools == old(tools)
      ensures skills == SkillsAfter(env, old(skills)) && manifest == ManifestAfter(env, skills, old(manifest))
      ensures log == old(log) + loaded + ReplayTrace(steps)
      ensures |loaded| <= 1 && (forall e :: e in loaded ==> e.Loaded?) && (old(binding).Some? ==> loaded == [])
      ensures metered == old(metered) + AllMetered(steps) && priced == old(priced) + AllPriced(env, steps)
      ensures usage == MergeAll(old(usage), AllMetered(steps))
      ensures var ready, pass := SkillsReady(env, old(skills)), HookPass(0, env.middleware, env.onStart, old(Conversation()));
              if ready && pass.flow.Continue? then
                Concludes(env, Plan(pass.convo, manifest, tools + (if skills != [] then SKILL_TOOLS else [])), steps, binding,
                          Conversation(), events, usage, CurrentCost(env))
              else
                && steps == [] && events == [Done(usage, CurrentCost(env), 0, Stopped)]
                && Conversation() == if ready then pass.convo else old(Conversation())
      ensures started == (if SkillsReady(env, old(skills))
                          then HookCalls(0, env.middleware, env.onStart, old(Conversation())) else 0)
      ensures hooks == old(hooks) + Begun(started) + Ended(started)
      ensures KeepsPairing(env) && WellPaired(old(messages)) ==> WellPaired(messages)
    {
      hide Disciplined, Current, MergeAll, CostAll, ReplayTrace, AllMetered, AllPriced, RunEvents, HasSignedHistory,
        WellPaired, Harmless, Begun, Ended, AllFollow, Counts, Ends, Leaves, HookPass, HookCalls, SkillsAfter, ManifestAfter;
      events, steps := [], [];
      NoTrace(env);
      ghost var open := false;
      var total, finish := 0, Stopped;
      var begun, go, runTools;
      begun, go, runTools, loaded := Prelude(env);
      started := begun;
      if go {
        total, finish, events, steps, open := RunSteps(env, runTools);
      }
      RunOnFinish(begun);
      MergeAllConcat(NO_USAGE, old(metered), AllMetered(steps));
      events := events + [Done(usage, CurrentCost(env), total, finish)];
      assert events[|events| - 1] == Done(usage, CurrentCost(env), total, finish);
    }
  }

  /** What the host changes on an agent before a run. */
  datatype Setup = Setup(messages: seq<Message>, model: Text, system: Option<Text>, tools: seq<Text>)

  /** A reconfiguration and a run. */
  method RunOnce(agent: Agent, setup: Setup, env: Env)
    requires agent.Valid()
    modifies agent
    ensures agent.Valid() && old(agent.log) <= agent.log
  {
    hide Disciplined, Current, MergeAll, CostAll, Concludes, KeepsPairing, WellPaired, ReplayTrace, AllMetered, HookPass,
      Begun, Ended;
    agent.Configure(setup.messages, setup.model, setup.system, setup.tools);
    var _, _, _, _ := agent.Run(env);
  }

  /** Any number of runs, each after any reconfiguration: one disciplined log, one clamped tally. */
  method Session(agent: Agent, runs: seq<(Setup, Env)>)
    requires agent.Valid()
    modifies agent
    ensures agent.Valid() && Disciplined(agent.log) && old(agent.log) <= agent.log
    ensures forall f :: Get(agent.usage, f) == Min(Sum(agent.metered, f), U64_MAX)
    ensures old(agent.binding).Some? ==> forall i :: |old(agent.log)| <= i < |agent.log| && agent.log[i].Sent? ==>
              Accepts(old(agent.binding).value, agent.log[i].request)
  {
    for k := 0 to |runs|
      invariant agent.Valid() && old(agent.log) <= agent.log
    {
      RunOnce(agent, runs[k].0, runs[k].1);
    }
    hide Disciplined, MergeAll, CostAll, Accepts;
    forall f ensures Get(agent.usage, f) == Min(Sum(agent.metered, f), U64_MAX) {
      TallyIsClampedSum(NO_USAGE, agent.metered, f);
    }
    if old(agent.binding).Some? {
      BoundFrom(old(agent.log), agent.log);
    }
  }

  /** A session that starts bound sends only requests its binding accepts. */
  lemma {:induction false} BoundFrom(before: seq<Entry>, log: seq<Entry>)
    requires Disciplined(log) && before <= log && Current(before).Some?
    ensures forall i :: |before| <= i < |log| && log[i].Sent? ==> Accepts(Current(before).value, log[i].request)
  {
    var at := LastBinding(before);
    forall i | |before| <= i < |log| && log[i].Sent?
      ensures Accepts(Current(before).value, log[i].request)
    {
      assert log[at] == before[at];
      RequestsKeepTheBoundPrefix(log, at, i);
    }
  }

  lemma {:induction false} LastBinding(log: seq<Entry>) returns (at: nat)
    requires Current(log).Some?
    ensures at < |log| && Binds(log[at]) && Current(log) == Some(log[at].binding)
  {
    if Binds(log[|log| - 1]) {
      at := |log| - 1;
    } else {
      at := LastBinding(log[..|log| - 1]);
    }
  }

  // ----- The offline provider contract --------------------------------------------------------------

  /** Replays a recorded stream through the production checks (`validate_stream_replay`). */
  method ValidateStreamReplay(parse: Parser, events: seq<StreamEvent>) returns (rejected: Option<Rejection>)
    ensures rejected.None? <==> NoneRefused(parse, events) && Accepted(parse, events)
  {
    hide TextOf, ReasoningOf, SignatureIn, CallsOf, UsageOf, StopOf, BlocksOf, BlockBytes, StreamedBytes, Refused,
      BlocksMatchCalls, InOrder, HasSigned;
    var step := new StepAccum(parse);
    for i := 0 to |events|
      invariant fresh(step) && step.parse == parse && step.Live() && step.protocolError.None?
      invariant step.applied == events[..i]
      invariant forall k :: 0 <= k < i ==> Refused(parse, events[..k], events[k]).None?
    {
      var _ := step.Apply(events[i]);
      if step.protocolError.Some? {
        return step.protocolError;
      }
    }
    assert events[..|events|] == events;
    rejected := step.ValidateBlocks();
  }

  /**
   * A recording whose terminal event is its last passes the offline contract exactly when the
   * agent, fed that stream, completes the step.
   */
  lemma ContractMatchesAgent(env: Env, r: StepRecord, script: seq<StreamEvent>)
    requires ReadFaithfully(env, r) && env.acquire(r.index, r.request).Ready?
    requires script == [env.acquire(r.index, r.request).first] + env.acquire(r.index, r.request).rest
    requires StopOf(script).Some? && EndsOnce(script)
    ensures r.completed && r.applied == script <==> NoneRefused(env.parse, script) && Accepted(env.parse, script)
    ensures NoneRefused(env.parse, script) ==> r.applied == script
  {
    hide Refused, Accepted, StopOf;
    var applied := r.applied;
    assert script[..|applied|] == applied;
    if applied != script {
      assert StopOf(script[..|applied|]).None?;
    }
  }

  /** The record of a step whose request never produced a stream. */
  lemma NothingStreamed(env: Env, index: nat, asked: Convo, request: Request, spent: seq<Usage>) returns (r: StepRecord)
    requires NeverStreamed(env.acquire(index, request), spent)
    ensures r.index == index && r.asked == asked && r.request == request && LegalStep(env, r)
    ensures !r.completed && r.metered == spent && r.turn == [] && r.results == []
    ensures StepEvents(env, r) == [] && Appended(r) == [] && BindingOf(request, r.turn) == []
  {
    r := StepRecord(index, asked, request, [], false, [], 0, [], [], [], [], [], spent);
    NothingSaid();
  }

  /** What is metered when no stream was obtained. */
  predicate NeverStreamed(acquired: Acquired, spent: seq<Usage>) {
    match acquired
    case Ready(_, _, _) => false
    case CancelledInFlight(tokens) => spent == [NO_USAGE.(input := tokens)]
    case NotOpened => spent == []
  }

  lemma NothingSaid()
    ensures SaidText([]) == "" && SaidReasoning([]) == ""
  {
    NoBlocksInOrder();
  }
}
