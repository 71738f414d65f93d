/**
 * The signed-history binding (crates/ai-sdk/src/agent.rs, `ReplayBinding`) and what a log of
 * bindings and requests must look like for signed blocks never to move.
 */
module Replay {
  import opened Wrappers
  import opened Conversation

  datatype Request = Request(model: Text, system: Option<Text>, messages: seq<Message>, tools: seq<Text>)

  datatype Binding = Binding(model: Text, system: Option<Text>, tools: seq<Text>, messages: seq<Message>)

  function FromRequest(r: Request): Binding {
    Binding(r.model, r.system, r.tools, r.messages)
  }

  predicate SameContext(b: Binding, model: Text, system: Option<Text>, tools: seq<Text>) {
    b.model == model && b.system == system && b.tools == tools
  }

  predicate Accepts(b: Binding, r: Request) {
    SameContext(b, r.model, r.system, r.tools) && b.messages <= r.messages
  }

  /** What happens to a session's binding: history loaded, a request sent, a signed reply bound. */
  datatype Entry =
    | Loaded(binding: Binding)
    | Sent(request: Request)
    | Rebound(binding: Binding)

  function Current(log: seq<Entry>): Option<Binding> {
    if log == [] then None
    else if log[|log| - 1].Sent? then Current(log[..|log| - 1])
    else Some(log[|log| - 1].binding)
  }

  /** One entry is legal after `log`. */
  ghost predicate Legal(log: seq<Entry>, e: Entry) {
    match e
    case Loaded(b) => Current(log).None? && HasSignedHistory(b.messages)
    case Sent(r) => Current(log).Some? ==> Accepts(Current(log).value, r)
    case Rebound(b) =>
      && log != [] && log[|log| - 1].Sent?
      && var r := log[|log| - 1].request;
         && SameContext(b, r.model, r.system, r.tools)
         && |b.messages| == |r.messages| + 1
         && r.messages <= b.messages
         && b.messages[|r.messages|].Assistant?
         && HasSigned(b.messages[|r.messages|].blocks)
  }

  ghost predicate Disciplined(log: seq<Entry>) {
    forall k :: 0 <= k < |log| ==> Legal(log[..k], log[k])
  }

  lemma Append(log: seq<Entry>, e: Entry)
    requires Disciplined(log) && Legal(log, e)
    ensures Disciplined(log + [e])
    ensures Current(log + [e]) == if e.Sent? then Current(log) else Some(e.binding)
  {
    var log' := log + [e];
    forall k | 0 <= k < |log'| ensures Legal(log'[..k], log'[k]) {
      assert log'[..k] == if k < |log| then log[..k] else log;
    }
    assert log'[..|log'| - 1] == log;
  }

  predicate Binds(e: Entry) { !e.Sent? }

  /** The binding in force never loses context and never gives up a bound message. */
  lemma {:induction false} BindingOnlyGrows(log: seq<Entry>, i: nat, j: nat)
    requires Disciplined(log) && i < j <= |log| && Binds(log[i])
    ensures Current(log[..j]).Some?
    ensures var b, c := log[i].binding, Current(log[..j]).value;
            SameContext(c, b.model, b.system, b.tools) && b.messages <= c.messages
    decreases j
  {
    hide Current, HasSigned, HasSignedHistory;
    CurrentStep(log, j - 1);
    if j > i + 1 {
      BindingOnlyGrows(log, i, j - 1);
      assert Legal(log[..j - 1], log[j - 1]);
      if log[j - 1].Rebound? {
        CurrentStep(log, j - 2);
        assert Legal(log[..j - 2], log[j - 2]);
      }
    }
  }

  lemma CurrentStep(log: seq<Entry>, k: nat)
    requires k < |log|
    ensures Current(log[..k + 1]) == if log[k].Sent? then Current(log[..k]) else Some(log[k].binding)
  {
    assert log[..k + 1][..k] == log[..k];
  }

  /** Once a binding exists every later request carries its context and starts with its messages. */
  lemma RequestsKeepTheBoundPrefix(log: seq<Entry>, i: nat, j: nat)
    requires Disciplined(log) && i < j < |log| && Binds(log[i]) && log[j].Sent?
    ensures Accepts(log[i].binding, log[j].request)
  {
    BindingOnlyGrows(log, i, j);
    assert Legal(log[..j], log[j]);
  }

  /** Each rebinding keeps the context and strictly extends every earlier bound prefix. */
  lemma RebindingStrictlyExtends(log: seq<Entry>, i: nat, j: nat)
    requires Disciplined(log) && i < j < |log| && Binds(log[i]) && Binds(log[j])
    ensures log[j].Rebound?
    ensures var b, c := log[i].binding, log[j].binding;
            && SameContext(c, b.model, b.system, b.tools)
            && b.messages <= c.messages && |b.messages| < |c.messages|
  {
    hide Current, HasSigned, HasSignedHistory;
    BindingOnlyGrows(log, i, j);
    assert Legal(log[..j], log[j]);
    assert log[..j][|log[..j]| - 1] == log[j - 1];
    assert log[j - 1].Sent?;
    RequestsKeepTheBoundPrefix(log, i, j - 1);
  }

  /** A signed block in a bound turn keeps its turn, its place and its content in every request. */
  lemma SignedBlocksNeverMove(log: seq<Entry>, i: nat, j: nat, turn: nat, block: nat)
    requires Disciplined(log) && i < j < |log| && Binds(log[i]) && log[j].Sent?
    requires turn < |log[i].binding.messages| && log[i].binding.messages[turn].Assistant?
    requires block < |log[i].binding.messages[turn].blocks|
    ensures turn < |log[j].request.messages|
    ensures var m := log[j].request.messages[turn];
            m.Assistant? && block < |m.blocks| && m.blocks[block] == log[i].binding.messages[turn].blocks[block]
  {
    RequestsKeepTheBoundPrefix(log, i, j);
  }
}
