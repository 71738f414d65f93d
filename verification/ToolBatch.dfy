/**
 * A step's batch of tool calls (crates/ai-sdk/src/agent.rs): the sequential approval pass,
 * the ordered dispatch, and the results handed back to the model.
 *
 * A middleware's answer is an arbitrary function of the step, the call's position and the
 * middleware's position, so every behaviour of a stateful middleware is covered.
 */
module ToolBatch {
  import opened Wrappers
  import opened Conversation

  datatype Approval =
    | Allow
    | Deny(message: Text)
    | Halt
    | Abort

  type Approver = (nat, nat, nat, ParsedCall) -> Approval
  type Dispatcher = (nat, nat, ParsedCall) -> ToolOutcome

  const CANCELLED_RESULT: Text := "tool call cancelled: run stopped"
  const MALFORMED_RESULT: Text := "malformed tool arguments"

  /** The middlewares and tools of one step. */
  datatype Gate = Gate(step: nat, middleware: nat, approve: Approver, dispatch: Dispatcher)

  function Answer(g: Gate, i: nat, call: ParsedCall, m: nat): Approval {
    g.approve(g.step, i, m, call)
  }

  predicate Halts(g: Gate, i: nat, call: ParsedCall) {
    exists m :: 0 <= m < g.middleware && (Answer(g, i, call, m).Halt? || Answer(g, i, call, m).Abort?)
  }

  predicate AllAllow(g: Gate, i: nat, call: ParsedCall) {
    forall m :: 0 <= m < g.middleware ==> Answer(g, i, call, m).Allow?
  }

  /** A call is cleared to run: everyone allows it, it parses, and nothing earlier halted. */
  predicate Cleared(g: Gate, calls: seq<ParsedCall>, j: nat) {
    && j < |calls|
    && AllAllow(g, j, calls[j])
    && !calls[j].malformed
    && forall i :: 0 <= i < j ==> !Halts(g, i, calls[i])
  }

  /** How many calls the approval pass gets through before one halts the batch. */
  predicate IsCut(g: Gate, calls: seq<ParsedCall>, k: nat) {
    && k <= |calls|
    && (forall i :: 0 <= i < k ==> !Halts(g, i, calls[i]))
    && (k < |calls| ==> Halts(g, k, calls[k]))
  }

  /** The first middleware that does not allow the call denies it with that message. */
  predicate DeniedWith(g: Gate, i: nat, call: ParsedCall, message: Text) {
    exists m :: 0 <= m < g.middleware && Answer(g, i, call, m) == Deny(message)
                && forall n :: 0 <= n < m ==> Answer(g, i, call, n).Allow?
  }

  /** What comes of a call that nothing halts: what the tool returns, or why it was not run. */
  predicate Settles(g: Gate, i: nat, call: ParsedCall, outcome: ToolOutcome) {
    if !AllAllow(g, i, call) then outcome.Denied? && DeniedWith(g, i, call, outcome.message)
    else if call.malformed then outcome == Failed(MALFORMED_RESULT)
    else outcome == g.dispatch(g.step, i, call)
  }

  /** The model is told what the tool returned, or why it did not, as an error. */
  predicate Tells(part: UserContent, id: Text, outcome: ToolOutcome) {
    && part.ToolResult? && part.id == id
    && (outcome.Returned? ==> !part.isError && part.content == outcome.value)
    && (!outcome.Returned? ==> part.isError && part.content == outcome.message)
  }

  /** Stop or an error from anyone wins; otherwise the first denial; otherwise the call is allowed. */
  method ResolveApproval(g: Gate, i: nat, call: ParsedCall) returns (decision: Approval)
    ensures decision.Halt? || decision.Abort? <==> Halts(g, i, call)
    ensures decision.Allow? <==> AllAllow(g, i, call)
    ensures decision.Deny? ==> DeniedWith(g, i, call, decision.message)
  {
    decision := Allow;
    for m := 0 to g.middleware
      invariant forall n :: 0 <= n < m ==> Answer(g, i, call, n).Allow? || Answer(g, i, call, n).Deny?
      invariant decision.Allow? <==> forall n :: 0 <= n < m ==> Answer(g, i, call, n).Allow?
      invariant decision.Allow? || decision.Deny?
      invariant decision.Deny? ==>
                  exists k :: 0 <= k < m && Answer(g, i, call, k) == decision
                              && forall n :: 0 <= n < k ==> Answer(g, i, call, n).Allow?
    {
      var answer := Answer(g, i, call, m);
      match answer
      case Allow =>
      case Deny(_) =>
        if decision.Allow? {
          decision := answer;
        }
      case Halt =>
        return Halt;
      case Abort =>
        return Abort;
    }
  }

  method ApprovalPass(g: Gate, calls: seq<ParsedCall>) returns (plans: seq<Approval>, halted: bool)
    ensures IsCut(g, calls, |plans|) && (halted <==> |plans| < |calls|)
    ensures forall i :: 0 <= i < |plans| ==>
              (plans[i].Allow? || plans[i].Deny?) && (plans[i].Allow? <==> AllAllow(g, i, calls[i]))
    ensures forall i :: 0 <= i < |plans| && plans[i].Deny? ==> DeniedWith(g, i, calls[i], plans[i].message)
  {
    hide DeniedWith;
    plans := [];
    for i := 0 to |calls|
      invariant |plans| == i
      invariant forall k :: 0 <= k < i ==> !Halts(g, k, calls[k])
      invariant forall k :: 0 <= k < i ==>
                  (plans[k].Allow? || plans[k].Deny?) && (plans[k].Allow? <==> AllAllow(g, k, calls[k]))
      invariant forall k :: 0 <= k < i && plans[k].Deny? ==> DeniedWith(g, k, calls[k], plans[k].message)
    {
      var decision := ResolveApproval(g, i, calls[i]);
      if decision.Halt? || decision.Abort? {
        return plans, true;
      }
      plans := plans + [decision];
    }
    halted := false;
  }

  ghost predicate StrictlyIncreasing(xs: seq<nat>) {
    forall i, j :: 0 <= i < j < |xs| ==> xs[i] < xs[j]
  }

  /** `dispatched` holds the positions of the calls handed to a tool. */
  method DispatchPlans(g: Gate, calls: seq<ParsedCall>, plans: seq<Approval>)
    returns (outcomes: seq<ToolOutcome>, ghost dispatched: seq<nat>)
    requires |plans| <= |calls|
    ensures |outcomes| == |plans|
    ensures StrictlyIncreasing(dispatched)
    ensures forall j: nat :: j in dispatched <==> j < |plans| && !plans[j].Deny? && !calls[j].malformed
    ensures forall j :: 0 <= j < |plans| ==>
              outcomes[j] == if plans[j].Deny? then Denied(plans[j].message)
                             else if calls[j].malformed then Failed(MALFORMED_RESULT)
                             else g.dispatch(g.step, j, calls[j])
  {
    outcomes, dispatched := [], [];
    for i := 0 to |plans|
      invariant |outcomes| == i && StrictlyIncreasing(dispatched)
      invariant forall j: nat :: j in dispatched <==> j < i && !plans[j].Deny? && !calls[j].malformed
      invariant forall j :: 0 <= j < i ==>
                  outcomes[j] == if plans[j].Deny? then Denied(plans[j].message)
                                 else if calls[j].malformed then Failed(MALFORMED_RESULT)
                                 else g.dispatch(g.step, j, calls[j])
    {
      if plans[i].Deny? {
        outcomes := outcomes + [Denied(plans[i].message)];
      } else if calls[i].malformed {
        outcomes := outcomes + [Failed(MALFORMED_RESULT)];
      } else {
        outcomes := outcomes + [g.dispatch(g.step, i, calls[i])];
        assert forall k :: 0 <= k < |dispatched| ==> dispatched[k] in dispatched;
        dispatched := dispatched + [i];
      }
    }
  }

  function Payload(outcome: ToolOutcome): Text {
    match outcome
    case Returned(v) => v
    case Denied(m) => m
    case Failed(m) => m
  }

  /** The ids not answered yet, in call order. */
  function Missing(ids: seq<Text>, answered: seq<Text>): seq<Text> {
    if ids == [] then []
    else Missing(ids[..|ids| - 1], answered) + (if ids[|ids| - 1] in answered then [] else [ids[|ids| - 1]])
  }

  /** The host hears of every result as it is added: its outcome, or that the call was cancelled. */
  predicate Announces(events: seq<AgentEvent>, results: seq<UserContent>, outcomes: seq<ToolOutcome>) {
    && |events| == |results|
    && forall k :: 0 <= k < |results| ==>
         && results[k].ToolResult?
         && events[k] == ToolFinished(results[k].id, if k < |outcomes| then outcomes[k] else Failed(CANCELLED_RESULT))
  }

  /** One tool_result per executed call, in order, each announced as it is added. */
  method ExecutedResults(ids: seq<Text>, outcomes: seq<ToolOutcome>)
    returns (results: seq<UserContent>, events: seq<AgentEvent>)
    requires |outcomes| <= |ids|
    ensures |results| == |outcomes| && ResultIds(results) == ids[..|outcomes|]
    ensures Announces(events, results, outcomes)
    ensures forall k :: 0 <= k < |outcomes| ==> Tells(results[k], ids[k], outcomes[k])
  {
    results, events := [], [];
    for i := 0 to |outcomes|
      invariant |results| == i == |events| && ResultIds(results) == ids[..i]
      invariant forall k :: 0 <= k < i ==> Tells(results[k], ids[k], outcomes[k])
      invariant forall k :: 0 <= k < i ==> events[k] == ToolFinished(results[k].id, outcomes[k])
    {
      var result := ToolResult(ids[i], Payload(outcomes[i]), !outcomes[i].Returned?);
      ResultIdsConcat(results, [result]);
      results := results + [result];
      events := events + [ToolFinished(ids[i], outcomes[i])];
    }
  }

  predicate IsCancelledResult(part: UserContent) {
    part.ToolResult? && part.isError && part.content == CANCELLED_RESULT
  }

  /** After a cut: a synthetic failure for every id without a result. */
  method SyntheticResults(ids: seq<Text>, answered: seq<Text>)
    returns (results: seq<UserContent>, events: seq<AgentEvent>)
    ensures ResultIds(results) == Missing(ids, answered)
    ensures Announces(events, results, [])
    ensures forall k :: 0 <= k < |results| ==> IsCancelledResult(results[k])
  {
    hide ResultIds, Missing;
    results, events := [], [];
    NothingMissing(answered);
    assert ids[..0] == [];
    for i := 0 to |ids|
      invariant ResultIds(results) == Missing(ids[..i], answered)
      invariant Announces(events, results, [])
      invariant forall k :: 0 <= k < |results| ==> IsCancelledResult(results[k])
    {
      MissingStep(ids, i, answered);
      if ids[i] !in answered {
        var result := ToolResult(ids[i], CANCELLED_RESULT, true);
        ResultIdsConcat(results, [result]);
        OneResult(result);
        results := results + [result];
        events := events + [ToolFinished(ids[i], Failed(CANCELLED_RESULT))];
      }
    }
    assert ids[..|ids|] == ids;
  }

  lemma NothingMissing(answered: seq<Text>)
    ensures ResultIds([]) == Missing([], answered) == []
  {
  }

  lemma MissingStep(ids: seq<Text>, i: nat, answered: seq<Text>)
    requires i < |ids|
    ensures Missing(ids[..i + 1], answered) == Missing(ids[..i], answered) + (if ids[i] in answered then [] else [ids[i]])
  {
    assert ids[..i + 1][..i] == ids[..i];
  }

  lemma OneResult(result: UserContent)
    requires result.ToolResult?
    ensures ResultIds([result]) == [result.id]
  {
    assert [result][1..] == [];
  }

  /** The user turn that answers a batch: what ran, then what the cut left unanswered. */
  method CollectResults(ids: seq<Text>, outcomes: seq<ToolOutcome>, halted: bool)
    returns (results: seq<UserContent>, events: seq<AgentEvent>)
    requires |outcomes| <= |ids| && (halted <==> |outcomes| < |ids|)
    ensures ResultIds(results) == AnsweredIds(ids, |outcomes|)
    ensures Announces(events, results, outcomes)
    ensures |results| >= |outcomes|
    ensures forall k :: 0 <= k < |outcomes| ==> Tells(results[k], ids[k], outcomes[k])
    ensures forall k :: |outcomes| <= k < |results| ==> IsCancelledResult(results[k])
  {
    hide ResultIds, Missing, Announces, Tells, IsCancelledResult;
    results, events := ExecutedResults(ids, outcomes);
    if halted {
      var more, said := SyntheticResults(ids, ids[..|outcomes|]);
      ResultIdsConcat(results, more);
      AnnouncedBoth(events, results, outcomes, said, more);
      results, events := results + more, events + said;
    }
  }

  lemma {:induction false} ResultIdsLength(results: seq<UserContent>)
    requires forall k :: 0 <= k < |results| ==> results[k].ToolResult?
    ensures |ResultIds(results)| == |results|
  {
    if results != [] {
      ResultIdsLength(results[1..]);
    }
  }

  lemma AnnouncedBoth(events: seq<AgentEvent>, results: seq<UserContent>, outcomes: seq<ToolOutcome>,
                      more: seq<AgentEvent>, others: seq<UserContent>)
    requires Announces(events, results, outcomes) && |results| == |outcomes| && Announces(more, others, [])
    ensures Announces(events + more, results + others, outcomes)
  {
  }

  // ----- What the results amount to --------------------------------------------------------

  lemma {:induction false} MissingMembers(ids: seq<Text>, answered: seq<Text>, id: Text)
    ensures id in Missing(ids, answered) <==> id in ids && id !in answered
  {
    if ids != [] {
      var n := |ids| - 1;
      MissingMembers(ids[..n], answered, id);
      assert ids == ids[..n] + [ids[n]];
    }
  }

  lemma {:induction false} MissingLength(ids: seq<Text>, answered: seq<Text>)
    ensures |Missing(ids, answered)| <= |ids|
    ensures |Missing(ids, answered)| == |ids| ==>
              Missing(ids, answered) == ids && forall j :: 0 <= j < |ids| ==> ids[j] !in answered
    ensures (forall j :: 0 <= j < |ids| ==> ids[j] !in answered) ==> Missing(ids, answered) == ids
  {
    if ids != [] {
      var n := |ids| - 1;
      MissingLength(ids[..n], answered);
      assert ids == ids[..n] + [ids[n]];
      assert forall j :: 0 <= j < n ==> ids[..n][j] == ids[j];
    }
  }

  /** Ids already answered contribute nothing, so only the tail of the batch is scanned in effect. */
  lemma {:induction false} MissingSkipsPrefix(ids: seq<Text>, k: nat, answered: seq<Text>)
    requires k <= |ids| && forall j :: 0 <= j < k ==> ids[j] in answered
    ensures Missing(ids, answered) == Missing(ids[k..], answered)
  {
    if k == |ids| {
      if k > 0 {
        MissingSkipsPrefix(ids[..k - 1], k - 1, answered);
      }
    } else {
      var n := |ids| - 1;
      MissingSkipsPrefix(ids[..n], k, answered);
      assert ids[k..][..n - k] == ids[..n][k..];
      assert ids[k..][n - k] == ids[n];
    }
  }

  /** The result ids of a batch of `ids` whose approval pass got through `k` calls. */
  function AnsweredIds(ids: seq<Text>, k: nat): seq<Text>
    requires k <= |ids|
  {
    ids[..k] + (if k < |ids| then Missing(ids, ids[..k]) else [])
  }

  /** No tool_use is left dangling, wherever the batch is cut and whatever ids repeat. */
  lemma EveryCallIsAnswered(ids: seq<Text>, k: nat, id: Text)
    requires k <= |ids|
    ensures id in AnsweredIds(ids, k) <==> id in ids
  {
    MissingMembers(ids, ids[..k], id);
    assert ids[..|ids|] == ids;
  }

  /**
   * The results are exactly the calls in order iff no id at or after the cut repeats one
   * before it.  In particular an uncut batch, and any batch of distinct ids, is exact.
   */
  lemma AnsweredExactlyIff(ids: seq<Text>, k: nat)
    requires k <= |ids|
    ensures AnsweredIds(ids, k) == ids <==> forall j :: k <= j < |ids| ==> ids[j] !in ids[..k]
    ensures Distinct(ids) ==> AnsweredIds(ids, k) == ids
  {
    assert ids[..|ids|] == ids;
    assert ids == ids[..k] + ids[k..];
    MissingSkipsPrefix(ids, k, ids[..k]);
    MissingLength(ids[k..], ids[..k]);
    assert forall j :: k <= j < |ids| ==> ids[k..][j - k] == ids[j];
    if AnsweredIds(ids, k) == ids && k < |ids| {
      assert |Missing(ids[k..], ids[..k])| == |ids[k..]|;
      assert forall j :: k <= j < |ids| ==> ids[j] == ids[k..][j - k];
    }
  }

  /** A provider that repeats an id gets fewer results than calls when the batch is cut between them. */
  lemma RepeatedIdLosesAResult()
    ensures AnsweredIds(["a", "a"], 1) == ["a"]
  {
    var ids: seq<Text> := ["a", "a"];
    assert ids[..1] == ["a"];
    assert Missing(ids[..1][..0], ids[..1]) == [];
    assert Missing(ids[..1], ids[..1]) == [];
    assert Missing(ids, ids[..1]) == [];
  }
}
