/**
 * One step's streamed output (crates/ai-sdk/src/agent.rs, `StepAccum`).
 *
 * The object is specified by its history: `applied` holds the events that took effect, and
 * every field is an independently defined function of that history.
 */
module StepAccumulator {
  import opened Wrappers
  import opened Metering
  import opened Conversation

  const MAX_BLOCK_BYTES: nat := 1024 * 1024
  const MAX_RESPONSE_BYTES: nat := 8 * 1024 * 1024
  const MAX_RESPONSE_BLOCKS: nat := 1024
  const BYTES_PER_TOKEN: nat := 4

  datatype Rejection =
    | ContentLimit
    | BadBlock
    | TooManyCalls
    | UnsignedBlocks
    | IncompleteIndices
    | DuplicateIds
    | UnmatchedBlock
    | OmittedBlock

  type Parser = Text -> Option<Json>

  // ----- Meaning of an event history ----------------------------------------------------

  function TextOf(es: seq<StreamEvent>): Text {
    if es == [] then "" else
      TextOf(es[..|es| - 1]) + (if es[|es| - 1].TextDelta? then es[|es| - 1].delta else "")
  }

  function ReasoningOf(es: seq<StreamEvent>): Text {
    if es == [] then "" else
      ReasoningOf(es[..|es| - 1]) + (if es[|es| - 1].ReasoningDelta? then es[|es| - 1].delta else "")
  }

  predicate SignatureIn(es: seq<StreamEvent>) {
    es != [] && (es[|es| - 1].SignatureDelta? || SignatureIn(es[..|es| - 1]))
  }

  function Parse(parse: Parser, e: StreamEvent): ParsedCall
    requires e.ToolCall?
  {
    match parse(e.arguments)
    case Some(args) => ParsedCall(e.id, e.name, args, false)
    case None => ParsedCall(e.id, e.name, EMPTY_OBJECT, true)
  }

  function CallsOf(parse: Parser, es: seq<StreamEvent>): seq<ParsedCall> {
    if es == [] then [] else
      CallsOf(parse, es[..|es| - 1]) +
      (if es[|es| - 1].ToolCall? then [Parse(parse, es[|es| - 1])] else [])
  }

  /** Reports replace one another: the latest one stands. */
  function UsageOf(es: seq<StreamEvent>): Usage {
    if es == [] then NO_USAGE else
      var e := es[|es| - 1];
      if e.Start? || e.Progress? || e.End? then e.usage else UsageOf(es[..|es| - 1])
  }

  function StopOf(es: seq<StreamEvent>): Option<StopReason> {
    if es == [] then None else
      var e := es[|es| - 1];
      if e.End? then Some(e.stop) else StopOf(es[..|es| - 1])
  }

  function BlocksOf(es: seq<StreamEvent>): map<nat, AssistantContent> {
    if es == [] then map[] else
      var e := es[|es| - 1];
      var rest := BlocksOf(es[..|es| - 1]);
      if e.CompleteBlock? then rest[e.index := e.content] else rest
  }

  function ContentBytes(content: AssistantContent): nat {
    match content
    case Said(text) => |text|
    case ToolUse(id, name, input) => |id| + |name| + |input.rendered|
    case Thought(Visible(text, signature)) => |text| + (if signature.Some? then |signature.value| else 0)
    case Thought(Redacted(data)) => |data|
  }

  function DeltaBytes(e: StreamEvent): nat {
    match e
    case TextDelta(t) => |t|
    case ReasoningDelta(t) => |t|
    case SignatureDelta(t) => |t|
    case ToolCall(id, name, arguments) => |id| + |name| + |arguments|
    case _ => 0
  }

  function StreamedBytes(es: seq<StreamEvent>): nat {
    if es == [] then 0 else StreamedBytes(es[..|es| - 1]) + DeltaBytes(es[|es| - 1])
  }

  function BlockBytes(es: seq<StreamEvent>): nat {
    if es == [] then 0 else
      BlockBytes(es[..|es| - 1]) +
      (if es[|es| - 1].CompleteBlock? then ContentBytes(es[|es| - 1].content) else 0)
  }

  /** What one more accepted event adds to each reading of the history. */
  lemma Extended(parse: Parser, es: seq<StreamEvent>, e: StreamEvent)
    ensures var es' := es + [e];
            && TextOf(es') == TextOf(es) + (if e.TextDelta? then e.delta else "")
            && ReasoningOf(es') == ReasoningOf(es) + (if e.ReasoningDelta? then e.delta else "")
            && (SignatureIn(es') <==> SignatureIn(es) || e.SignatureDelta?)
            && CallsOf(parse, es') == CallsOf(parse, es) + (if e.ToolCall? then [Parse(parse, e)] else [])
            && UsageOf(es') == (if e.Start? || e.Progress? || e.End? then e.usage else UsageOf(es))
            && StopOf(es') == (if e.End? then Some(e.stop) else StopOf(es))
            && BlocksOf(es') == (if e.CompleteBlock? then BlocksOf(es)[e.index := e.content] else BlocksOf(es))
            && BlockBytes(es') == BlockBytes(es) + (if e.CompleteBlock? then ContentBytes(e.content) else 0)
            && StreamedBytes(es') == StreamedBytes(es) + DeltaBytes(e)
  {
    var es' := es + [e];
    assert es'[..|es'| - 1] == es && es'[|es'| - 1] == e;
  }

  /** Why `e` may not follow the accepted history `es`, if it may not. */
  function Refused(parse: Parser, es: seq<StreamEvent>, e: StreamEvent): Option<Rejection> {
    if DeltaBytes(e) > MAX_BLOCK_BYTES || StreamedBytes(es) + DeltaBytes(e) > MAX_RESPONSE_BYTES then
      Some(ContentLimit)
    else if e.CompleteBlock? &&
            (ContentBytes(e.content) > MAX_BLOCK_BYTES
             || BlockBytes(es) + ContentBytes(e.content) > MAX_RESPONSE_BYTES
             || |BlocksOf(es)| >= MAX_RESPONSE_BLOCKS
             || e.index in BlocksOf(es)) then
      Some(BadBlock)
    else if e.ToolCall? && |CallsOf(parse, es)| >= MAX_RESPONSE_BLOCKS then
      Some(TooManyCalls)
    else
      None
  }

  /** The event forwarded to the host the instant `e` is accepted. */
  function LiveDelta(parse: Parser, e: StreamEvent): Option<AgentEvent> {
    match e
    case TextDelta(t) => Some(MessageDelta(t))
    case ReasoningDelta(t) => Some(ReasoningUpdate(t))
    case ToolCall(id, name, _) => Some(ToolRequested(id, name, Parse(parse, e).args))
    case _ => None
  }

  // ----- Blocks in index order -----------------------------------------------------------

  lemma {:induction false} LeastExists(s: set<nat>, x: nat)
    requires x in s
    ensures exists m :: m in s && forall k :: k in s ==> m <= k
  {
    if y :| y in s && y < x {
      LeastExists(s, y);
    } else {
      assert x in s && forall k :: k in s ==> x <= k;
    }
  }

  function Least(s: set<nat>): (m: nat)
    requires s != {}
    ensures m in s && forall k :: k in s ==> m <= k
  {
    assert exists m :: m in s && forall k :: k in s ==> m <= k by {
      var x :| x in s;
      LeastExists(s, x);
    }
    var m :| m in s && forall k :: k in s ==> m <= k;
    m
  }

  /** The iteration order of a `BTreeMap`: keys ascending. */
  function Ascending(s: set<nat>): (ks: seq<nat>)
    ensures |ks| == |s|
    ensures forall k :: k in ks <==> k in s
    ensures forall i, j :: 0 <= i < j < |ks| ==> ks[i] < ks[j]
  {
    if s == {} then [] else
      var m := Least(s);
      var rest := Ascending(s - {m});
      LeastFirst(s, m, rest);
      [m] + rest
  }

  lemma LeastFirst(s: set<nat>, m: nat, rest: seq<nat>)
    requires m in s && (forall k :: k in s ==> m <= k) && |rest| == |s - {m}|
    requires forall k :: k in rest <==> k in s - {m}
    requires forall i, j :: 0 <= i < j < |rest| ==> rest[i] < rest[j]
    ensures var ks := [m] + rest;
            && |ks| == |s| && (forall k :: k in ks <==> k in s)
            && forall i, j :: 0 <= i < j < |ks| ==> ks[i] < ks[j]
  {
    var ks := [m] + rest;
    forall i | 0 <= i < |rest| ensures m < rest[i] {
      assert rest[i] in rest;
    }
    assert forall i :: 1 <= i < |ks| ==> ks[i] == rest[i - 1];
  }

  function InOrder(blocks: map<nat, AssistantContent>): (bs: seq<AssistantContent>)
    ensures |bs| == |blocks|
  {
    var ks := Ascending(blocks.Keys);
    seq(|ks|, i requires 0 <= i < |ks| => assert ks[i] in ks; blocks[ks[i]])
  }

  ghost predicate ExactIndices(blocks: map<nat, AssistantContent>) {
    forall k: nat :: k in blocks.Keys <==> k < |blocks|
  }

  /** Strictly ascending naturals climb at least as fast as their positions. */
  lemma {:induction false} AscendingAtLeastIndex(ks: seq<nat>, i: nat)
    requires i < |ks|
    requires forall i, j :: 0 <= i < j < |ks| ==> ks[i] < ks[j]
    ensures ks[i] >= i
  {
    if i > 0 {
      AscendingAtLeastIndex(ks, i - 1);
    }
  }

  ghost predicate CountsUp(ks: seq<nat>) {
    forall i :: 0 <= i < |ks| ==> ks[i] == i
  }

  lemma CountingKeys(ks: seq<nat>, k: nat)
    requires CountsUp(ks)
    ensures k in ks <==> k < |ks|
  {
    if k < |ks| {
      assert ks[k] in ks;
    }
  }

  /** Walking the keys in order meets 0, 1, 2, … exactly when the indices have no gap. */
  lemma ExactIndicesIff(blocks: map<nat, AssistantContent>)
    ensures ExactIndices(blocks) <==> CountsUp(Ascending(blocks.Keys))
  {
    var ks := Ascending(blocks.Keys);
    assert |ks| == |blocks|;
    hide Ascending;
    if ExactIndices(blocks) {
      forall i | 0 <= i < |ks| ensures ks[i] == i {
        AscendingGapFree(ks, i);
      }
    } else if CountsUp(ks) {
      forall k: nat ensures k in blocks.Keys <==> k < |blocks| {
        CountingKeys(ks, k);
      }
    }
  }

  lemma {:induction false} AscendingGapFree(ks: seq<nat>, i: nat)
    requires i < |ks|
    requires forall i, j :: 0 <= i < j < |ks| ==> ks[i] < ks[j]
    requires forall k :: k in ks <==> 0 <= k < |ks|
    ensures ks[i] == i
    decreases |ks| - i
  {
    AscendingAtLeastIndex(ks, i);
    assert ks[i] in ks;
    if i + 1 < |ks| {
      AscendingGapFree(ks, i + 1);
    }
  }

  /** Text blocks joined in index order. */
  function BlockText(bs: seq<AssistantContent>): Text {
    if bs == [] then "" else
      BlockText(bs[..|bs| - 1]) + (if bs[|bs| - 1].Said? then bs[|bs| - 1].text else "")
  }

  function BlockReasoning(bs: seq<AssistantContent>): Text {
    if bs == [] then "" else
      BlockReasoning(bs[..|bs| - 1]) +
      (if bs[|bs| - 1].Thought? && bs[|bs| - 1].thinking.Visible? then bs[|bs| - 1].thinking.text else "")
  }

  /** The calls the tool_use blocks stand for, in block order. */
  function CallsIn(bs: seq<AssistantContent>): seq<ParsedCall> {
    if bs == [] then [] else
      CallsIn(bs[..|bs| - 1]) +
      (if bs[|bs| - 1].ToolUse?
       then [ParsedCall(bs[|bs| - 1].id, bs[|bs| - 1].name, bs[|bs| - 1].input, false)]
       else [])
  }

  /** Every later call is still in the list once more blocks have been read. */
  lemma {:induction false} CallsInPrefix(bs: seq<AssistantContent>, k: nat)
    requires k <= |bs|
    ensures CallsIn(bs[..k]) <= CallsIn(bs)
  {
    if k < |bs| {
      assert bs[..|bs| - 1][..k] == bs[..k];
      CallsInPrefix(bs[..|bs| - 1], k);
    } else {
      assert bs[..k] == bs;
    }
  }

  lemma {:induction false} CallsInUseIds(bs: seq<AssistantContent>)
    ensures Ids(CallsIn(bs)) == UseIds(bs)
    ensures forall i :: 0 <= i < |CallsIn(bs)| ==> !CallsIn(bs)[i].malformed
  {
    if bs != [] {
      var n := |bs| - 1;
      CallsInUseIds(bs[..n]);
      UseIdsConcat(bs[..n], bs[n..]);
      assert bs == bs[..n] + bs[n..];
      assert UseIds(bs[n..]) == if bs[n].ToolUse? then [bs[n].id] else [] by {
        assert bs[n..] == [bs[n]];
        assert bs[n..][1..] == [];
      }
    }
  }

  /** What the agent demands of complete blocks before any tool may run. */
  ghost predicate BlocksMatchCalls(blocks: map<nat, AssistantContent>, queued: seq<ParsedCall>) {
    && ExactIndices(blocks)
    && Distinct(Ids(CallsIn(InOrder(blocks))))
    && multiset(CallsIn(InOrder(blocks))) == multiset(queued)
  }

  function EstimatedTokens(bytes: nat): Count {
    var tokens := (bytes + BYTES_PER_TOKEN - 1) / BYTES_PER_TOKEN;
    if tokens <= U64_MAX then tokens else U64_MAX
  }

  // ----- The accumulator -----------------------------------------------------------------

  class StepAccum {
    const parse: Parser
    var text: Text
    var reasoning: Text
    var sawSignature: bool
    var toolCalls: seq<ParsedCall>
    var stepUsage: Usage
    var stop: Option<StopReason>
    var completeBlocks: map<nat, AssistantContent>
    var completeBytes: nat
    var deltaBytes: nat
    var protocolError: Option<Rejection>
    ghost var applied: seq<StreamEvent>

    /** Every field is the value its history determines. */
    ghost predicate Live()
      reads this
    {
      && text == TextOf(applied)
      && reasoning == ReasoningOf(applied)
      && sawSignature == SignatureIn(applied)
      && toolCalls == CallsOf(parse, applied)
      && stepUsage == UsageOf(applied)
      && stop == StopOf(applied)
      && completeBlocks == BlocksOf(applied)
      && (protocolError.None? ==> completeBytes == BlockBytes(applied) <= MAX_RESPONSE_BYTES)
      && (protocolError.None? ==> deltaBytes == StreamedBytes(applied) <= MAX_RESPONSE_BYTES)
    }

    constructor (parse: Parser)
      ensures Live() && applied == [] && protocolError.None? && this.parse == parse
    {
      this.parse := parse;
      text, reasoning, sawSignature, toolCalls := "", "", false, [];
      stepUsage, stop, completeBlocks := NO_USAGE, None, map[];
      completeBytes, deltaBytes, protocolError := 0, 0, None;
      applied := [];
    }

    /** Folds one event in, or records why it cannot be. */
    method Apply(event: StreamEvent) returns (delta: Option<AgentEvent>)
      requires Live() && protocolError.None?
      modifies this
      ensures Live()
      ensures protocolError == Refused(parse, old(applied), event)
      ensures applied == if protocolError.None? then old(applied) + [event] else old(applied)
      ensures delta == if protocolError.None? then LiveDelta(parse, event) else None
    {
      hide TextOf, ReasoningOf, SignatureIn, CallsOf, UsageOf, StopOf, BlocksOf, BlockBytes, StreamedBytes, ContentBytes, Parse;
      Extended(parse, applied, event);
      delta := None;
      deltaBytes := deltaBytes + DeltaBytes(event);
      if DeltaBytes(event) > MAX_BLOCK_BYTES || deltaBytes > MAX_RESPONSE_BYTES {
        protocolError := Some(ContentLimit);
        return;
      }
      match event {
      case Start(usage) =>
        stepUsage := usage;
      case Progress(usage) =>
        stepUsage := usage;
      case TextDelta(t) =>
        text := text + t;
        delta := Some(MessageDelta(t));
      case ReasoningDelta(t) =>
        reasoning := reasoning + t;
        delta := Some(ReasoningUpdate(t));
      case SignatureDelta(_) =>
        sawSignature := true;
      case CompleteBlock(index, content) =>
        var bytes := ContentBytes(content);
        completeBytes := completeBytes + bytes;
        if bytes > MAX_BLOCK_BYTES || completeBytes > MAX_RESPONSE_BYTES
           || |completeBlocks| >= MAX_RESPONSE_BLOCKS || index in completeBlocks
        {
          protocolError := Some(BadBlock);
        } else {
          completeBlocks := completeBlocks[index := content];
        }
      case ToolCall(id, name, _) =>
        if |toolCalls| >= MAX_RESPONSE_BLOCKS {
          protocolError := Some(TooManyCalls);
          return;
        }
        var call := Parse(parse, event);
        toolCalls := toolCalls + [call];
        delta := Some(ToolRequested(id, name, call.args));
      case End(reason, usage) =>
        stop := Some(reason);
        stepUsage := usage;
      }
      if protocolError.None? {
        applied := applied + [event];
      }
    }

    /** Complete-only providers stream no text: take it from the blocks, in index order. */
    method CaptureCompleteText()
      modifies this`text, this`reasoning
      ensures text == if old(text) != "" then old(text) else BlockText(InOrder(completeBlocks))
      ensures reasoning == if old(reasoning) != "" then old(reasoning) else BlockReasoning(InOrder(completeBlocks))
    {
      if text == "" {
        text := JoinText(InOrder(completeBlocks));
      }
      if reasoning == "" {
        reasoning := JoinReasoning(InOrder(completeBlocks));
      }
    }

    /**
     * Complete blocks are authoritative: no tool runs unless they account for exactly the
     * queued calls, and the calls then run in block order whatever order they arrived in.
     */
    method ValidateBlocks() returns (rejected: Option<Rejection>)
      modifies this`toolCalls
      ensures protocolError.Some? ==> rejected == protocolError
      ensures rejected.None? <==>
              && protocolError.None?
              && (sawSignature ==> HasSigned(InOrder(completeBlocks)))
              && (completeBlocks == map[] || BlocksMatchCalls(completeBlocks, old(toolCalls)))
      ensures rejected.None? ==>
                toolCalls == if completeBlocks == map[] then old(toolCalls) else CallsIn(InOrder(completeBlocks))
    {
      hide Ascending, InOrder, CallsIn, ExactIndices, CountsUp, Distinct, Ids;
      if protocolError.Some? {
        return protocolError;
      }
      var blocks := InOrder(completeBlocks);
      if sawSignature && !HasSigned(blocks) {
        return Some(UnsignedBlocks);
      }
      if completeBlocks == map[] {
        return None;
      }
      ExactIndicesIff(completeBlocks);
      var gapFree := CheckIndices(Ascending(completeBlocks.Keys));
      if !gapFree {
        return Some(IncompleteIndices);
      }
      rejected, toolCalls := MatchCalls(blocks, toolCalls);
    }

    /** The provider's counts so far, the output at least what the streamed text suggests. */
    function PartialUsage(): (u: Usage)
      reads this
      ensures u.output >= stepUsage.output && u.output >= EstimatedTokens(|text| + |reasoning|)
      ensures u == stepUsage.(output := u.output)
    {
      var estimate := EstimatedTokens(|text| + |reasoning|);
      stepUsage.(output := if stepUsage.output >= estimate then stepUsage.output else estimate)
    }
  }

  // ----- List searches used by the validation ---------------------------------------------

  method JoinText(blocks: seq<AssistantContent>) returns (text: Text)
    ensures text == BlockText(blocks)
  {
    text := "";
    for i := 0 to |blocks|
      invariant text == BlockText(blocks[..i])
    {
      assert blocks[..i + 1][..i] == blocks[..i];
      if blocks[i].Said? {
        text := text + blocks[i].text;
      }
    }
    assert blocks[..|blocks|] == blocks;
  }

  method JoinReasoning(blocks: seq<AssistantContent>) returns (text: Text)
    ensures text == BlockReasoning(blocks)
  {
    text := "";
    for i := 0 to |blocks|
      invariant text == BlockReasoning(blocks[..i])
    {
      assert blocks[..i + 1][..i] == blocks[..i];
      if blocks[i].Thought? && blocks[i].thinking.Visible? {
        text := text + blocks[i].thinking.text;
      }
    }
    assert blocks[..|blocks|] == blocks;
  }

  /** Claims one queued call per tool_use block; `calls` is the claimed list, or what was left. */
  method MatchCalls(blocks: seq<AssistantContent>, queued: seq<ParsedCall>)
    returns (rejected: Option<Rejection>, calls: seq<ParsedCall>)
    ensures rejected.None? <==>
            Distinct(Ids(CallsIn(blocks))) && multiset(CallsIn(blocks)) == multiset(queued)
    ensures rejected.None? ==> calls == CallsIn(blocks)
  {
    var ordered := [];
    calls := queued;
    for i := 0 to |blocks|
      invariant ordered == CallsIn(blocks[..i]) && Distinct(Ids(ordered))
      invariant multiset(ordered) + multiset(calls) == multiset(queued)
    {
      assert blocks[..i + 1][..i] == blocks[..i];
      if blocks[i].ToolUse? {
        var call := ParsedCall(blocks[i].id, blocks[i].name, blocks[i].input, false);
        CallsInPrefix(blocks, i + 1);
        assert ordered + [call] <= CallsIn(blocks);
        var duplicate := HasId(ordered, call.id);
        if duplicate {
          RepeatedId(ordered, call, CallsIn(blocks));
          return Some(DuplicateIds), calls;
        }
        var position := Position(calls, call);
        if position.None? {
          NotQueued(ordered, call, CallsIn(blocks), calls, queued);
          return Some(UnmatchedBlock), calls;
        }
        Claimed(ordered, calls, position.value);
        calls := calls[..position.value] + calls[position.value + 1..];
        ordered := ordered + [call];
      }
    }
    assert blocks[..|blocks|] == blocks;
    if calls != [] {
      LeftOver(ordered, calls, queued);
      return Some(OmittedBlock), calls;
    }
    return None, ordered;
  }

  lemma LeftOver(ordered: seq<ParsedCall>, calls: seq<ParsedCall>, queued: seq<ParsedCall>)
    requires multiset(ordered) + multiset(calls) == multiset(queued) && calls != []
    ensures multiset(ordered) != multiset(queued)
  {
    assert calls[0] in multiset(calls);
    assert multiset(ordered)[calls[0]] < multiset(queued)[calls[0]];
  }

  lemma RepeatedId(ordered: seq<ParsedCall>, call: ParsedCall, all: seq<ParsedCall>)
    requires ordered + [call] <= all
    requires call.id in Ids(ordered)
    ensures !Distinct(Ids(all))
  {
    var k :| 0 <= k < |ordered| && Ids(ordered)[k] == call.id;
    assert all[k] == (ordered + [call])[k] && all[|ordered|] == (ordered + [call])[|ordered|];
    assert Ids(all)[k] == Ids(all)[|ordered|];
  }

  method CheckIndices(keys: seq<nat>) returns (ok: bool)
    ensures ok <==> CountsUp(keys)
  {
    for expected := 0 to |keys|
      invariant forall i :: 0 <= i < expected ==> keys[i] == i
    {
      if keys[expected] != expected {
        return false;
      }
    }
    return true;
  }

  method HasId(calls: seq<ParsedCall>, id: Text) returns (found: bool)
    ensures found <==> id in Ids(calls)
  {
    for i := 0 to |calls|
      invariant forall j :: 0 <= j < i ==> calls[j].id != id
    {
      if calls[i].id == id {
        assert Ids(calls)[i] == id;
        return true;
      }
    }
    return false;
  }

  method Position(calls: seq<ParsedCall>, call: ParsedCall) returns (at: Option<nat>)
    ensures at.Some? ==> at.value < |calls| && calls[at.value] == call && call !in calls[..at.value]
    ensures at.None? <==> call !in calls
  {
    for i := 0 to |calls|
      invariant call !in calls[..i]
    {
      if calls[i] == call {
        return Some(i);
      }
    }
    return None;
  }

  /** Moving a call from the queue to the claimed list loses and invents nothing. */
  lemma Claimed(ordered: seq<ParsedCall>, calls: seq<ParsedCall>, i: nat)
    requires i < |calls|
    ensures multiset(ordered + [calls[i]]) + multiset(calls[..i] + calls[i + 1..])
            == multiset(ordered) + multiset(calls)
    ensures Distinct(Ids(ordered)) && calls[i].id !in Ids(ordered) ==> Distinct(Ids(ordered + [calls[i]]))
  {
    assert calls == calls[..i] + [calls[i]] + calls[i + 1..];
    assert Ids(ordered + [calls[i]]) == Ids(ordered) + [calls[i].id];
  }

  /** A block whose call is not among the unclaimed ones cannot be part of a permutation. */
  lemma NotQueued(ordered: seq<ParsedCall>, call: ParsedCall, all: seq<ParsedCall>,
                  unclaimed: seq<ParsedCall>, queued: seq<ParsedCall>)
    requires ordered + [call] <= all
    requires multiset(ordered) + multiset(unclaimed) == multiset(queued)
    requires call !in unclaimed
    ensures multiset(all) != multiset(queued)
  {
    assert all == ordered + [call] + all[|ordered| + 1..];
    assert multiset(all)[call] >= multiset(ordered)[call] + 1;
    assert multiset(unclaimed)[call] == 0;
  }
}
