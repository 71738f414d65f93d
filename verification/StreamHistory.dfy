/**
 * What a stream's history amounts to (crates/ai-sdk/src/agent.rs, `StepAccum::apply`): which histories
 * stay within the limits, and what the host is shown of them.
 */
module StreamHistory {
  import opened Wrappers
  import opened Conversation
  import opened StepAccumulator
  import opened AgentLoop

  // ----- The limits --------------------------------------------------------------------------------------

  /** No single part of an event is larger than a block may be. */
  predicate Small(e: StreamEvent) {
    DeltaBytes(e) <= MAX_BLOCK_BYTES && (e.CompleteBlock? ==> ContentBytes(e.content) <= MAX_BLOCK_BYTES)
  }

  /** Each block position is used once. */
  ghost predicate PositionsOnce(es: seq<StreamEvent>) {
    forall i, j :: 0 <= i < j < |es| && es[i].CompleteBlock? && es[j].CompleteBlock? ==> es[i].index != es[j].index
  }

  /** As a whole the response is no larger than it may be, in bytes, in blocks and in calls. */
  ghost predicate WithinLimits(parse: Parser, es: seq<StreamEvent>) {
    && (forall i :: 0 <= i < |es| ==> Small(es[i]))
    && StreamedBytes(es) <= MAX_RESPONSE_BYTES && BlockBytes(es) <= MAX_RESPONSE_BYTES
    && PositionsOnce(es) && |BlocksOf(es)| <= MAX_RESPONSE_BLOCKS && |CallsOf(parse, es)| <= MAX_RESPONSE_BLOCKS
  }

  lemma {:induction false} BlockKeys(es: seq<StreamEvent>, index: nat)
    ensures index in BlocksOf(es) <==> exists i :: 0 <= i < |es| && es[i].CompleteBlock? && es[i].index == index
  {
    if es != [] {
      var n := |es| - 1;
      BlockKeys(es[..n], index);
      if i :| 0 <= i < n && es[i].CompleteBlock? && es[i].index == index {
        assert es[..n][i] == es[i];
      }
    }
  }

  lemma PositionsStep(es: seq<StreamEvent>, e: StreamEvent)
    ensures PositionsOnce(es + [e]) <==> PositionsOnce(es) && (e.CompleteBlock? ==> e.index !in BlocksOf(es))
  {
    var all := es + [e];
    assert forall i :: 0 <= i < |es| ==> all[i] == es[i];
    assert all[|es|] == e;
    if e.CompleteBlock? {
      BlockKeys(es, e.index);
    }
  }

  lemma RefusedStep(parse: Parser, es: seq<StreamEvent>, e: StreamEvent)
    ensures NoneRefused(parse, es + [e]) <==> NoneRefused(parse, es) && Refused(parse, es, e).None?
  {
    hide Refused;
    var all := es + [e];
    assert all[..|es|] == es && all[|es|] == e;
    assert forall k :: 0 <= k < |es| ==> all[..k] == es[..k] && all[k] == es[k];
    if NoneRefused(parse, es) && Refused(parse, es, e).None? {
      NoneRefusedSnoc(parse, es, e);
    }
    if NoneRefused(parse, all) {
      assert Refused(parse, all[..|es|], all[|es|]).None?;
    }
  }

  lemma LimitsStep(parse: Parser, es: seq<StreamEvent>, e: StreamEvent)
    requires WithinLimits(parse, es)
    ensures WithinLimits(parse, es + [e]) <==> Refused(parse, es, e).None?
  {
    hide StreamedBytes, BlockBytes, BlocksOf, CallsOf, DeltaBytes, ContentBytes, PositionsOnce, Parse;
    Extended(parse, es, e);
    PositionsStep(es, e);
    var all := es + [e];
    assert forall i :: 0 <= i < |es| ==> all[i] == es[i];
    assert all[|es|] == e;
  }

  lemma LimitsFront(parse: Parser, es: seq<StreamEvent>, e: StreamEvent)
    requires WithinLimits(parse, es + [e])
    ensures WithinLimits(parse, es)
  {
    hide StreamedBytes, BlockBytes, BlocksOf, CallsOf, DeltaBytes, ContentBytes, PositionsOnce, Parse;
    Extended(parse, es, e);
    PositionsStep(es, e);
    var all := es + [e];
    assert forall i :: 0 <= i < |es| ==> all[i] == es[i];
  }

  /** No event of a stream is refused iff the response as a whole is within its limits. */
  lemma {:induction false} LimitsIff(parse: Parser, es: seq<StreamEvent>)
    ensures NoneRefused(parse, es) <==> WithinLimits(parse, es)
  {
    hide NoneRefused, WithinLimits, Refused;
    if es == [] {
      NothingRefused(parse);
    } else {
      var front, e := es[..|es| - 1], es[|es| - 1];
      assert es == front + [e];
      LimitsIff(parse, front);
      RefusedStep(parse, front, e);
      if WithinLimits(parse, front) {
        LimitsStep(parse, front, e);
      } else if WithinLimits(parse, es) {
        LimitsFront(parse, front, e);
      }
    }
  }

  lemma NothingRefused(parse: Parser)
    ensures NoneRefused(parse, []) && WithinLimits(parse, [])
  {
  }

  // ----- What the host is shown --------------------------------------------------------------------------------

  function ShownText(events: seq<AgentEvent>): Text {
    if events == [] then "" else
      ShownText(events[..|events| - 1]) +
      (if events[|events| - 1].MessageDelta? then events[|events| - 1].text else "")
  }

  function ShownReasoning(events: seq<AgentEvent>): Text {
    if events == [] then "" else
      ShownReasoning(events[..|events| - 1]) +
      (if events[|events| - 1].ReasoningUpdate? then events[|events| - 1].text else "")
  }

  function ShownCalls(events: seq<AgentEvent>): seq<(Text, Text, Json)> {
    if events == [] then [] else
      var e := events[|events| - 1];
      ShownCalls(events[..|events| - 1]) + (if e.ToolRequested? then [(e.id, e.name, e.args)] else [])
  }

  function Named(calls: seq<ParsedCall>): seq<(Text, Text, Json)> {
    seq(|calls|, i requires 0 <= i < |calls| => (calls[i].id, calls[i].name, calls[i].args))
  }

  lemma ShownStep(events: seq<AgentEvent>, e: AgentEvent)
    ensures ShownText(events + [e]) == ShownText(events) + (if e.MessageDelta? then e.text else "")
    ensures ShownReasoning(events + [e]) == ShownReasoning(events) + (if e.ReasoningUpdate? then e.text else "")
    ensures ShownCalls(events + [e]) == ShownCalls(events) + (if e.ToolRequested? then [(e.id, e.name, e.args)] else [])
  {
    assert (events + [e])[..|events|] == events;
  }

  /** The host is shown the streamed text and reasoning, and every call as it is queued, in order. */
  lemma {:induction false} DeltasShow(parse: Parser, es: seq<StreamEvent>)
    ensures ShownText(Deltas(parse, es)) == TextOf(es) && ShownReasoning(Deltas(parse, es)) == ReasoningOf(es)
    ensures ShownCalls(Deltas(parse, es)) == Named(CallsOf(parse, es))
  {
    hide ShownText, ShownReasoning, ShownCalls, TextOf, ReasoningOf, CallsOf, Deltas;
    if es == [] {
      NothingShown(parse);
    } else {
      var front, e := es[..|es| - 1], es[|es| - 1];
      assert es == front + [e];
      DeltasShow(parse, front);
      DeltasStep(parse, front, e);
      Extended(parse, front, e);
      if LiveDelta(parse, e).Some? {
        ShownStep(Deltas(parse, front), LiveDelta(parse, e).value);
      } else {
        assert Deltas(parse, front) + [] == Deltas(parse, front);
      }
      assert TextOf(front) + "" == TextOf(front) && ReasoningOf(front) + "" == ReasoningOf(front);
      assert CallsOf(parse, front) + [] == CallsOf(parse, front);
      assert Named(CallsOf(parse, front)) + [] == Named(CallsOf(parse, front));
    }
  }

  lemma NothingShown(parse: Parser)
    ensures ShownText(Deltas(parse, [])) == "" == TextOf([])
    ensures ShownReasoning(Deltas(parse, [])) == "" == ReasoningOf([])
    ensures ShownCalls(Deltas(parse, [])) == [] == Named(CallsOf(parse, []))
  {
  }

  lemma BlockStep(bs: seq<AssistantContent>, b: AssistantContent)
    ensures BlockText(bs + [b]) == BlockText(bs) + (if b.Said? then b.text else "")
    ensures BlockReasoning(bs + [b]) ==
            BlockReasoning(bs) + (if b.Thought? && b.thinking.Visible? then b.thinking.text else "")
  {
    assert (bs + [b])[..|bs|] == bs;
  }

  /** Text and thinking are read off the blocks in order: those of two lists, one after the other. */
  lemma {:induction false} BlocksJoin(a: seq<AssistantContent>, b: seq<AssistantContent>)
    ensures BlockText(a + b) == BlockText(a) + BlockText(b)
    ensures BlockReasoning(a + b) == BlockReasoning(a) + BlockReasoning(b)
  {
    hide BlockText, BlockReasoning;
    if b == [] {
      NoBlocks();
      assert a + b == a;
    } else {
      var front, last := b[..|b| - 1], b[|b| - 1];
      assert b == front + [last] && a + b == a + front + [last];
      BlocksJoin(a, front);
      BlockStep(a + front, last);
      BlockStep(front, last);
    }
  }

  lemma NoBlocks()
    ensures BlockText([]) == "" && BlockReasoning([]) == ""
  {
  }

  /** And a text block alone is its text, a visible thought alone its reasoning. */
  lemma OneBlock(b: AssistantContent)
    ensures BlockText([b]) == if b.Said? then b.text else ""
    ensures BlockReasoning([b]) == if b.Thought? && b.thinking.Visible? then b.thinking.text else ""
  {
    assert [b][..0] == [];
  }
}
