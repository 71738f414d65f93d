/**
 * The offline contract every provider's recorded stream must meet
 * (crates/ai-sdk/src/test_support/contract/stream.rs, `assert_stream`), and what a conforming
 * stream makes the agent do.
 */
module ProviderContract {
  import opened Wrappers
  import opened Metering
  import opened Conversation
  import opened StepAccumulator
  import opened ToolBatch
  import opened AgentLoop

  const MAX_EVENTS: nat := 4096

  /** What the provider's stream yields: an event, or an error. */
  datatype Delivery = Delivered(event: StreamEvent) | Errored

  datatype Violation =
    | TooLongOrAfterEnd | StreamFailed | LateStart | UnsoundUsage | NotCumulative | BadToolCall | RepeatedPosition
    | WrongEnd | NoTool | NoEnd | PositionGap | ReplayRefused

  // ----- Usage ------------------------------------------------------------------------------------------

  /** Reasoning is part of the output, one-hour cache writes are part of the writes. */
  predicate SoundUsage(u: Usage) { u.reasoning <= u.output && u.cacheCreate1h <= u.cacheCreate }

  function TotalInput(u: Usage): Count { SaturatingAdd(SaturatingAdd(u.input, u.cacheCreate), u.cacheRead) }

  /** A later report covers an earlier one. */
  predicate Covers(later: Usage, earlier: Usage) {
    && TotalInput(later) >= TotalInput(earlier)
    && later.output >= earlier.output
    && later.cacheCreate >= earlier.cacheCreate
    && later.cacheCreate1h >= earlier.cacheCreate1h
    && later.cacheRead >= earlier.cacheRead
    && later.reasoning >= earlier.reasoning
  }

  predicate Reports(e: StreamEvent) { e.Start? || e.Progress? || e.End? }

  // ----- The contract --------------------------------------------------------------------------------------

  /** The k-th event may stand where it stands: a condition on it and the events before it. */
  ghost predicate GoodAt(es: seq<StreamEvent>, k: nat, stop: StopReason, usage: Usage)
    requires k < |es|
  {
    var e := es[k];
    && (forall j :: 0 <= j < k ==> !es[j].End?)
    && (e.Start? ==> k == 0)
    && (Reports(e) ==> SoundUsage(e.usage) && forall j :: 0 <= j < k && Reports(es[j]) ==> Covers(e.usage, es[j].usage))
    && (e.ToolCall? ==> e.id != "" && e.name != "" && forall j :: 0 <= j < k && es[j].ToolCall? ==> es[j].id != e.id)
    && (e.CompleteBlock? ==> forall j :: 0 <= j < k && es[j].CompleteBlock? ==> es[j].index != e.index)
    && (e.End? ==> e == End(stop, usage) && (stop.ToolUseStop? ==> exists j :: 0 <= j < k && es[j].ToolCall?))
  }

  ghost function Positions(es: seq<StreamEvent>): set<nat> {
    set k | 0 <= k < |es| && es[k].CompleteBlock? :: es[k].index
  }

  /** The positions are 0, 1, …, n - 1. */
  ghost predicate NoGap(positions: set<nat>) {
    forall p: nat :: p < |positions| ==> p in positions
  }

  /**
   * At most 4096 events ending in the expected terminal event and nothing after it; a start only at
   * the front; sound, cumulative usage; nonempty tool names and nonempty, distinct tool ids; distinct
   * block positions without a gap; a tool where the stop asks for one; and a replay the agent accepts.
   */
  ghost predicate Conforms(parse: Parser, es: seq<StreamEvent>, stop: StopReason, usage: Usage) {
    && |es| <= MAX_EVENTS
    && (forall k :: 0 <= k < |es| ==> GoodAt(es, k, stop, usage))
    && es != [] && es[|es| - 1].End?
    && NoGap(Positions(es))
    && NoneRefused(parse, es) && Accepted(parse, es)
  }

  // ----- The loop that decides it ---------------------------------------------------------------------------

  /** What the loop remembers of the events so far. */
  datatype Notes = Notes(
    start: Option<Usage>, hasEnded: bool, toolIds: set<Text>, positions: set<nat>, hasTool: bool)

  ghost predicate Tracks(es: seq<StreamEvent>, n: Notes) {
    && (n.hasEnded <==> exists j :: 0 <= j < |es| && es[j].End?)
    && (n.hasTool <==> exists j :: 0 <= j < |es| && es[j].ToolCall?)
    && (forall id :: id in n.toolIds <==> exists j :: 0 <= j < |es| && es[j].ToolCall? && es[j].id == id)
    && n.positions == Positions(es)
    && (!n.hasEnded ==> Latest(es, n.start))
  }

  /** The remembered usage was reported, and covers every report. */
  ghost predicate Latest(es: seq<StreamEvent>, start: Option<Usage>) {
    && (start.Some? ==> exists j :: 0 <= j < |es| && Reports(es[j]) && es[j].usage == start.value)
    && forall j :: 0 <= j < |es| && Reports(es[j]) ==> start.Some? && Covers(start.value, es[j].usage)
  }

  function NotesAfter(n: Notes, e: StreamEvent): Notes {
    match e
    case Start(usage) => n.(start := Some(usage))
    case Progress(usage) => n.(start := Some(usage))
    case ToolCall(id, _, _) => n.(toolIds := n.toolIds + {id}, hasTool := true)
    case CompleteBlock(index, _) => n.(positions := n.positions + {index})
    case End(_, _) => n.(hasEnded := true)
    case _ => n
  }

  lemma CoversTransitive(a: Usage, b: Usage, c: Usage)
    requires Covers(a, b) && Covers(b, c)
    ensures Covers(a, c)
  {
    hide TotalInput;
  }

  /** Covering the remembered report is covering them all. */
  lemma CoversLatest(es: seq<StreamEvent>, start: Option<Usage>, u: Usage)
    requires Latest(es, start)
    ensures (start.Some? ==> Covers(u, start.value)) <==>
            forall j :: 0 <= j < |es| && Reports(es[j]) ==> Covers(u, es[j].usage)
  {
    hide Covers;
    if start.Some? && Covers(u, start.value) {
      forall j | 0 <= j < |es| && Reports(es[j]) ensures Covers(u, es[j].usage) {
        CoversTransitive(u, start.value, es[j].usage);
      }
    }
  }

  lemma SameBefore(es: seq<StreamEvent>, e: StreamEvent)
    ensures forall j :: 0 <= j < |es| ==> (es + [e])[j] == es[j]
    ensures (es + [e])[|es|] == e
  {
  }

  lemma LatestStep(es: seq<StreamEvent>, n: Notes, e: StreamEvent)
    requires Latest(es, n.start) && !e.End?
    requires Reports(e) && n.start.Some? ==> Covers(e.usage, n.start.value)
    ensures Latest(es + [e], NotesAfter(n, e).start)
  {
    SameBefore(es, e);
    hide Covers;
    if Reports(e) {
      CoversLatest(es, n.start, e.usage);
      CoversItself(e.usage);
    }
  }

  lemma CoversItself(u: Usage)
    ensures Covers(u, u)
  {
  }

  lemma PositionsStep(es: seq<StreamEvent>, e: StreamEvent)
    ensures Positions(es + [e]) == Positions(es) + (if e.CompleteBlock? then {e.index} else {})
  {
    SameBefore(es, e);
    var all := es + [e];
    forall p | p in Positions(es) ensures p in Positions(all) {
      var k :| 0 <= k < |es| && es[k].CompleteBlock? && es[k].index == p;
      assert all[k] == es[k];
    }
    if e.CompleteBlock? {
      assert all[|es|].CompleteBlock?;
    }
  }

  lemma FlagsStep(es: seq<StreamEvent>, e: StreamEvent)
    ensures (exists j :: 0 <= j < |es + [e]| && (es + [e])[j].End?) <==> e.End? || exists j :: 0 <= j < |es| && es[j].End?
    ensures (exists j :: 0 <= j < |es + [e]| && (es + [e])[j].ToolCall?) <==>
            e.ToolCall? || exists j :: 0 <= j < |es| && es[j].ToolCall?
  {
    SameBefore(es, e);
  }

  lemma ToolIdStep(es: seq<StreamEvent>, e: StreamEvent, id: Text)
    ensures (exists j :: 0 <= j < |es + [e]| && (es + [e])[j].ToolCall? && (es + [e])[j].id == id) <==>
            (e.ToolCall? && e.id == id) || exists j :: 0 <= j < |es| && es[j].ToolCall? && es[j].id == id
  {
    SameBefore(es, e);
  }

  lemma TracksStep(es: seq<StreamEvent>, n: Notes, e: StreamEvent)
    requires Tracks(es, n) && !n.hasEnded
    requires Reports(e) && n.start.Some? ==> Covers(e.usage, n.start.value)
    ensures Tracks(es + [e], NotesAfter(n, e))
  {
    hide Latest, Covers, Positions;
    FlagsStep(es, e);
    PositionsStep(es, e);
    forall id ensures id in NotesAfter(n, e).toolIds <==>
                        exists j :: 0 <= j < |es + [e]| && (es + [e])[j].ToolCall? && (es + [e])[j].id == id
    {
      ToolIdStep(es, e, id);
    }
    if !e.End? {
      LatestStep(es, n, e);
    }
  }

  /** Judges one event by the notes alone. */
  method CheckEvent(ghost es: seq<StreamEvent>, n: Notes, first: bool, e: StreamEvent, stop: StopReason, usage: Usage)
    returns (violation: Option<Violation>)
    requires Tracks(es, n) && !n.hasEnded && first == (es == [])
    ensures violation.None? <==> GoodAt(es + [e], |es|, stop, usage)
    ensures violation.None? && Reports(e) && n.start.Some? ==> Covers(e.usage, n.start.value)
  {
    hide Covers, SoundUsage;
    SameBefore(es, e);
    if Reports(e) {
      CoversLatest(es, n.start, e.usage);
    }
    if e.CompleteBlock? {
      PositionTaken(es, e);
    }
    hide Positions, Latest;
    match e
    case Start(u) =>
      if !first { return Some(LateStart); }
      if !SoundUsage(u) { return Some(UnsoundUsage); }
      return None;
    case Progress(u) =>
      if !SoundUsage(u) { return Some(UnsoundUsage); }
      if n.start.Some? && !Covers(u, n.start.value) { return Some(NotCumulative); }
      return None;
    case ToolCall(id, name, _) =>
      if id == "" || name == "" || id in n.toolIds { return Some(BadToolCall); }
      return None;
    case CompleteBlock(index, _) =>
      if index in n.positions { return Some(RepeatedPosition); }
      return None;
    case End(s, u) =>
      if !SoundUsage(u) { return Some(UnsoundUsage); }
      if s != stop || u != usage || (n.start.Some? && !Covers(u, n.start.value)) { return Some(WrongEnd); }
      if s == ToolUseStop && !n.hasTool { return Some(NoTool); }
      return None;
    case _ =>
      return None;
  }

  lemma PositionTaken(es: seq<StreamEvent>, e: StreamEvent)
    requires e.CompleteBlock?
    ensures e.index in Positions(es) <==> exists j :: 0 <= j < |es| && es[j].CompleteBlock? && es[j].index == e.index
  {
  }

  predicate AllDelivered(stream: seq<Delivery>) {
    forall i :: 0 <= i < |stream| ==> stream[i].Delivered?
  }

  function EventsOf(stream: seq<Delivery>): seq<StreamEvent>
    requires AllDelivered(stream)
  {
    seq(|stream|, i requires 0 <= i < |stream| => stream[i].event)
  }

  lemma GoodPrefix(es: seq<StreamEvent>, n: nat, k: nat, stop: StopReason, usage: Usage)
    requires k < n <= |es|
    ensures GoodAt(es[..n], k, stop, usage) <==> GoodAt(es, k, stop, usage)
  {
    hide Covers, SoundUsage;
    assert forall j :: 0 <= j < n ==> es[..n][j] == es[j];
  }

  lemma Extending(stream: seq<Delivery>, i: nat)
    requires i < |stream| && AllDelivered(stream[..i]) && stream[i].Delivered?
    ensures AllDelivered(stream[..i + 1]) && EventsOf(stream[..i + 1]) == EventsOf(stream[..i]) + [stream[i].event]
    ensures AllDelivered(stream) ==> EventsOf(stream)[..i + 1] == EventsOf(stream[..i]) + [stream[i].event]
  {
    assert forall j :: 0 <= j < i ==> stream[..i][j] == stream[j];
    assert forall j :: 0 <= j <= i ==> stream[..i + 1][j] == stream[j];
  }

  /** An event that may not stand where it stands, or comes after an end or past the limit, breaks the contract. */
  lemma Violates(parse: Parser, stream: seq<Delivery>, i: nat, stop: StopReason, usage: Usage)
    requires i < |stream| && AllDelivered(stream[..i]) && AllDelivered(stream)
    requires var es := EventsOf(stream[..i]);
             || i >= MAX_EVENTS
             || (exists j :: 0 <= j < |es| && es[j].End?)
             || !GoodAt(es + [stream[i].event], i, stop, usage)
    ensures !Conforms(parse, EventsOf(stream), stop, usage)
  {
    hide NoneRefused, Accepted, Positions, NoGap, Covers, SoundUsage;
    var es, all := EventsOf(stream[..i]), EventsOf(stream);
    Extending(stream, i);
    GoodPrefix(all, i + 1, i, stop, usage);
    assert all[..i + 1] == es + [stream[i].event];
    if j :| 0 <= j < |es| && es[j].End? {
      assert all[j] == stream[j].event;
      assert !GoodAt(all, i, stop, usage);
    }
  }

  /** Whether the positions have a gap, one by one. */
  method CheckPositions(positions: set<nat>) returns (ok: bool)
    ensures ok <==> NoGap(positions)
  {
    for index := 0 to |positions|
      invariant forall p: nat :: p < index ==> p in positions
    {
      if index !in positions { return false; }
    }
    return true;
  }

  /** The contract is met iff the stream never fails and its events conform; they are returned as they came. */
  method AssertStream(parse: Parser, stream: seq<Delivery>, stop: StopReason, usage: Usage)
    returns (r: Result<seq<StreamEvent>, Violation>)
    ensures r.Ok? <==> AllDelivered(stream) && Conforms(parse, EventsOf(stream), stop, usage)
    ensures r.Ok? ==> r.value == EventsOf(stream)
  {
    hide GoodAt, Tracks, Positions, NoneRefused, Accepted, NoGap;
    var events: seq<StreamEvent> := [];
    var notes := Notes(None, false, {}, {}, false);
    NothingTracked();
    for i := 0 to |stream|
      invariant AllDelivered(stream[..i]) && events == EventsOf(stream[..i]) && i <= MAX_EVENTS
      invariant forall k :: 0 <= k < i ==> GoodAt(events, k, stop, usage)
      invariant Tracks(events, notes)
    {
      TracksEnd(events, notes);
      if i >= MAX_EVENTS || notes.hasEnded {
        if AllDelivered(stream) {
          Violates(parse, stream, i, stop, usage);
        }
        return Err(TooLongOrAfterEnd);
      }
      if stream[i].Errored? {
        return Err(StreamFailed);
      }
      var event := stream[i].event;
      var violation := CheckEvent(events, notes, i == 0, event, stop, usage);
      if violation.Some? {
        if AllDelivered(stream) {
          Violates(parse, stream, i, stop, usage);
        }
        return Err(violation.value);
      }
      Extending(stream, i);
      TracksStep(events, notes, event);
      StillGood(events, event, stop, usage);
      events := events + [event];
      notes := NotesAfter(notes, event);
    }
    assert stream[..|stream|] == stream;
    TracksEnd(events, notes);
    if !notes.hasEnded {
      return Err(NoEnd);
    }
    LastEnds(events, stop, usage);
    var ok := CheckPositions(notes.positions);
    if !ok {
      return Err(PositionGap);
    }
    var rejected := ValidateStreamReplay(parse, events);
    if rejected.Some? {
      return Err(ReplayRefused);
    }
    r := Ok(events);
  }

  lemma NothingTracked()
    ensures Tracks([], Notes(None, false, {}, {}, false))
  {
  }

  lemma TracksEnd(es: seq<StreamEvent>, n: Notes)
    requires Tracks(es, n)
    ensures n.hasEnded <==> exists j :: 0 <= j < |es| && es[j].End?
    ensures n.positions == Positions(es)
  {
  }

  lemma StillGood(es: seq<StreamEvent>, e: StreamEvent, stop: StopReason, usage: Usage)
    requires forall k :: 0 <= k < |es| ==> GoodAt(es, k, stop, usage)
    requires GoodAt(es + [e], |es|, stop, usage)
    ensures forall k :: 0 <= k <= |es| ==> GoodAt(es + [e], k, stop, usage)
  {
    hide GoodAt;
    var all := es + [e];
    assert all[..|es|] == es;
    forall k | 0 <= k < |es| ensures GoodAt(all, k, stop, usage) {
      GoodPrefix(all, |es|, k, stop, usage);
    }
  }

  /** Nothing follows an end, so an end is the last event. */
  lemma LastEnds(es: seq<StreamEvent>, stop: StopReason, usage: Usage)
    requires forall k :: 0 <= k < |es| ==> GoodAt(es, k, stop, usage)
    ensures (exists j :: 0 <= j < |es| && es[j].End?) <==> es != [] && es[|es| - 1].End?
  {
    hide Covers, SoundUsage;
    if j :| 0 <= j < |es| && es[j].End? {
      assert GoodAt(es, |es| - 1, stop, usage);
    }
  }

  // ----- What a conforming stream makes the agent do ------------------------------------------------------------

  lemma {:induction false} NoStopYet(es: seq<StreamEvent>)
    requires forall k :: 0 <= k < |es| ==> !es[k].End?
    ensures StopOf(es).None?
  {
    if es != [] {
      NoStopYet(es[..|es| - 1]);
    }
  }

  /** The contract's loop is what makes a recording end once, with the expected stop and usage. */
  lemma ConformingEnds(parse: Parser, es: seq<StreamEvent>, stop: StopReason, usage: Usage)
    requires Conforms(parse, es, stop, usage)
    ensures EndsOnce(es) && StopOf(es) == Some(stop) && UsageOf(es) == usage
  {
    hide NoneRefused, Accepted, Positions, NoGap, Covers, SoundUsage;
    var n := |es| - 1;
    assert GoodAt(es, n, stop, usage);
    forall k | 0 <= k < |es| ensures StopOf(es[..k]).None? {
      assert forall j :: 0 <= j < k ==> es[..k][j] == es[j];
      NoStopYet(es[..k]);
    }
  }

  lemma {:induction false} CallIds(parse: Parser, es: seq<StreamEvent>, n: nat, stop: StopReason, usage: Usage)
    requires n <= |es| && forall k :: 0 <= k < |es| ==> GoodAt(es, k, stop, usage)
    ensures Distinct(Ids(CallsOf(parse, es[..n])))
    ensures forall id :: id in Ids(CallsOf(parse, es[..n])) ==> exists j :: 0 <= j < n && es[j].ToolCall? && es[j].id == id
  {
    hide GoodAt;
    if n > 0 {
      CallIds(parse, es, n - 1, stop, usage);
      CallsStep(parse, es, n - 1);
      ToolIdNew(es, n - 1, stop, usage);
      hide CallsOf;
      var before, e := Ids(CallsOf(parse, es[..n - 1])), es[n - 1];
      assert Ids(CallsOf(parse, es[..n])) == before + (if e.ToolCall? then [e.id] else []);
      if e.ToolCall? {
        forall i | 0 <= i < |before| ensures before[i] != e.id {
          assert before[i] in before;
        }
      }
    }
  }

  lemma CallsStep(parse: Parser, es: seq<StreamEvent>, n: nat)
    requires n < |es|
    ensures CallsOf(parse, es[..n + 1]) == CallsOf(parse, es[..n]) + (if es[n].ToolCall? then [Parse(parse, es[n])] else [])
  {
    assert es[..n + 1][..n] == es[..n];
  }

  lemma ToolIdNew(es: seq<StreamEvent>, k: nat, stop: StopReason, usage: Usage)
    requires k < |es| && GoodAt(es, k, stop, usage)
    ensures es[k].ToolCall? ==> forall j :: 0 <= j < k && es[j].ToolCall? ==> es[j].id != es[k].id
  {
    hide Covers, SoundUsage;
  }

  lemma {:induction false} CallsArrive(parse: Parser, es: seq<StreamEvent>, j: nat)
    requires j < |es| && es[j].ToolCall?
    ensures CallsOf(parse, es) != []
  {
    if j < |es| - 1 {
      CallsArrive(parse, es[..|es| - 1], j);
    }
  }

  lemma AskedForTools(parse: Parser, es: seq<StreamEvent>, usage: Usage)
    requires Conforms(parse, es, ToolUseStop, usage)
    ensures CallsOf(parse, es) != []
  {
    hide NoneRefused, Accepted, Positions, NoGap, Covers, SoundUsage, CallsOf;
    assert GoodAt(es, |es| - 1, ToolUseStop, usage);
    var j :| 0 <= j < |es| && es[j].ToolCall?;
    CallsArrive(parse, es, j);
  }

  /** The calls a conforming response asks for: all that streamed, each once, with distinct ids. */
  lemma RequestedOnce(parse: Parser, es: seq<StreamEvent>, stop: StopReason, usage: Usage)
    requires Conforms(parse, es, stop, usage)
    ensures Distinct(Ids(RequestedCalls(parse, es)))
    ensures multiset(RequestedCalls(parse, es)) == multiset(CallsOf(parse, es))
    ensures stop.ToolUseStop? ==> RequestedCalls(parse, es) != []
  {
    hide NoneRefused, Positions, NoGap, GoodAt, CallsOf, BlocksOf, CallsIn, InOrder, SignatureIn, HasSigned, ExactIndices;
    assert es[..|es|] == es;
    CallIds(parse, es, |es|, stop, usage);
    if stop.ToolUseStop? {
      AskedForTools(parse, es, usage);
      assert |multiset(CallsOf(parse, es))| == |CallsOf(parse, es)|;
      assert |multiset(RequestedCalls(parse, es))| == |RequestedCalls(parse, es)|;
    }
  }

  /**
   * Fed a conforming stream, the agent reads all of it, completes the step, meters exactly the usage
   * the stream reported, and answers exactly the calls it made, in order; and where the stop asks for
   * tools, those calls are the streamed ones.
   */
  lemma ConformingStep(env: Env, r: StepRecord, script: seq<StreamEvent>, stop: StopReason, usage: Usage)
    requires LegalStep(env, r) && env.acquire(r.index, r.request).Ready?
    requires script == [env.acquire(r.index, r.request).first] + env.acquire(r.index, r.request).rest
    requires Conforms(env.parse, script, stop, usage)
    ensures r.applied == script && r.completed && r.metered == [usage]
    ensures ResultIds(r.results) == UseIds(r.turn) == Ids(r.calls) && Distinct(Ids(r.calls))
    ensures stop.ToolUseStop? ==> r.calls != [] && multiset(r.calls) == multiset(CallsOf(env.parse, script))
  {
    hide Conforms, Completes, NoneRefused, Accepted, RequestedCalls, StopOf, UsageOf, CallsOf, EndsOnce, Distinct,
      TurnsMatch, DispatchedExactly, AnsweredIds, IsCut, Cleared, GrantedCalls;
    ConformingEnds(env.parse, script, stop, usage);
    RequestedOnce(env.parse, script, stop, usage);
    ConformingReplays(env.parse, script, stop, usage);
    ContractMatchesAgent(env, r, script);
    DistinctCallsAnsweredInOrder(env, r);
    CallsAreGranted(env, r);
    GrantedOnce(env.parse, script);
    assert |r.metered| == 1 && r.metered[0] == usage;
  }

  lemma ConformingReplays(parse: Parser, es: seq<StreamEvent>, stop: StopReason, usage: Usage)
    requires Conforms(parse, es, stop, usage)
    ensures NoneRefused(parse, es) && Accepted(parse, es)
  {
    hide NoneRefused, Accepted;
  }

  lemma CallsAreGranted(env: Env, r: StepRecord)
    requires LegalStep(env, r) && r.completed
    ensures r.calls == GrantedCalls(env.parse, r.applied) && UseIds(r.turn) == Ids(r.calls)
  {
    hide GrantedCalls, IsCut, Cleared, UseIds, Ids, AnsweredIds;
  }

  lemma GrantedOnce(parse: Parser, es: seq<StreamEvent>)
    requires Distinct(Ids(RequestedCalls(parse, es))) && StopOf(es).Some?
    ensures Distinct(Ids(GrantedCalls(parse, es)))
    ensures StopOf(es) == Some(ToolUseStop) && RequestedCalls(parse, es) != [] ==>
              GrantedCalls(parse, es) == RequestedCalls(parse, es)
  {
    hide RequestedCalls, StopOf;
  }
}
