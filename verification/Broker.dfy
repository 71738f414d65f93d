/**
 * The Postgres pub/sub broker (crates/pubsub-postgres/src/lib.rs): one node's counters, replay guard,
 * pending calls and listen loop, over a bus that may drop, duplicate, reorder or replay envelopes.
 */
module Broker {
  import opened Wrappers

  const U64_LIMIT: nat := 0x1_0000_0000_0000_0000
  const OUTBOX_CAPACITY: nat := 4096
  const MAX_INBOUND_CALLS: nat := 64

  type U64 = x: nat | x < U64_LIMIT

  /** Release arithmetic wraps around. */
  function Successor(x: U64): U64 { (x + 1) % U64_LIMIT }

  datatype Body =
    | Publication(topic: string)
    | Call(id: U64, topic: string)
    | Reply(to: U64, id: U64, ok: bool)

  /** A verified envelope; forged, malformed and stale ones never open. */
  datatype Envelope = Envelope(origin: U64, counter: U64, body: Body)

  datatype Event =
    | Accepted(envelope: Envelope)
    | Dispatched(envelope: Envelope)
    | Resolved(call: nat, envelope: Envelope)
    | Started(call: nat, id: U64)
    | Lost
    | Reset
    | Attached
    | Sealed(envelope: Envelope)
    | Freed(place: nat, origin: U64, id: U64, replied: bool)

  // ----- What a node's history promises ------------------------------------------------------------------

  /** No accepted counter is the last one of all, whose successor wraps to zero. */
  ghost predicate NeverLast(log: seq<Event>) {
    forall i :: 0 <= i < |log| && log[i].Accepted? ==> log[i].envelope.counter + 1 < U64_LIMIT
  }

  /** From each origin, envelopes are accepted with strictly increasing counters. */
  ghost predicate Increasing(log: seq<Event>) {
    forall i, j :: 0 <= i < j < |log| && log[i].Accepted? && log[j].Accepted? &&
                   log[i].envelope.origin == log[j].envelope.origin ==>
      log[i].envelope.counter < log[j].envelope.counter
  }

  /** A node never accepts its own envelopes. */
  ghost predicate NeverOwn(log: seq<Event>, node: U64) {
    forall i :: 0 <= i < |log| && log[i].Accepted? ==> log[i].envelope.origin != node
  }

  /** Only an envelope accepted just before is dispatched, and so each at most once. */
  ghost predicate DispatchedOnce(log: seq<Event>) {
    forall i :: 0 <= i < |log| && log[i].Dispatched? ==> i > 0 && log[i - 1] == Accepted(log[i].envelope)
  }

  /** A call is resolved at most once. */
  ghost predicate ResolvedOnce(log: seq<Event>) {
    forall i, j :: 0 <= i < j < |log| && log[i].Resolved? && log[j].Resolved? ==> log[i].call != log[j].call
  }

  /** A call is resolved only by a dispatched reply addressed to this node with the call's own id. */
  ghost predicate ResolvedByReply(log: seq<Event>, node: U64, ids: seq<U64>) {
    forall i :: 0 <= i < |log| && log[i].Resolved? ==>
      && log[i].call < |ids|
      && log[i].envelope.body.Reply? && log[i].envelope.body.to == node && log[i].envelope.body.id == ids[log[i].call]
      && i > 0 && log[i - 1] == Dispatched(log[i].envelope)
  }

  /** Subscribers may have missed messages: a lost connection with no reset (and no new sink) since. */
  ghost predicate Owes(log: seq<Event>) {
    exists i :: 0 <= i < |log| && log[i].Lost? && forall k :: i < k < |log| ==> !log[k].Reset? && !log[k].Attached?
  }

  /** Nothing is dispatched between a lost connection and the reset that follows it. */
  ghost predicate ResetFirst(log: seq<Event>) {
    forall i, j :: 0 <= i < j < |log| && log[i].Lost? && log[j].Dispatched? ==>
      exists k :: i < k < j && (log[k].Reset? || log[k].Attached?)
  }

  /** This node's own envelopes are sealed with strictly increasing counters, for as long as they do not wrap. */
  ghost predicate SentIncreasing(log: seq<Event>) {
    forall i, j :: 0 <= i < j < |log| && log[i].Sealed? && log[j].Sealed? ==>
      log[i].envelope.counter < log[j].envelope.counter
  }

  ghost predicate Promises(log: seq<Event>, node: U64, ids: seq<U64>) {
    && NeverOwn(log, node) && DispatchedOnce(log) && ResolvedOnce(log) && ResolvedByReply(log, node, ids) && ResetFirst(log)
    && (NeverLast(log) ==> Increasing(log))
  }

  // ----- The replay guard --------------------------------------------------------------------------------------

  type Seen = map<U64, U64>

  function LastSeen(seen: Seen, origin: U64): U64 { if origin in seen then seen[origin] else 0 }

  function IsFresh(seen: Seen, e: Envelope): bool { e.counter >= LastSeen(seen, e.origin) }

  function SeenAfter(seen: Seen, e: Envelope): Seen {
    seen[e.origin := if IsFresh(seen, e) then Successor(e.counter) else LastSeen(seen, e.origin)]
  }

  /** Every accepted counter is below what the guard asks for next. */
  ghost predicate Guards(seen: Seen, log: seq<Event>) {
    forall i :: 0 <= i < |log| && log[i].Accepted? ==>
      log[i].envelope.origin in seen && log[i].envelope.counter < seen[log[i].envelope.origin]
  }

  /** What the guard asks for next is zero, or follows a counter that was accepted. */
  ghost predicate Founded(seen: Seen, log: seq<Event>) {
    forall origin :: origin in seen && seen[origin] != 0 ==> Follows(log, origin, seen[origin])
  }

  ghost predicate Follows(log: seq<Event>, origin: U64, next: U64) {
    exists e :: Accepted(e) in log && e.origin == origin && next == Successor(e.counter)
  }

  /** Later than all that was accepted from its origin. */
  ghost predicate Newest(log: seq<Event>, e: Envelope) {
    forall f :: Accepted(f) in log && f.origin == e.origin ==> f.counter < e.counter
  }

  /** In terms of the history alone: an envelope is let in exactly when it is the newest of its origin. */
  lemma FreshIffNewest(seen: Seen, log: seq<Event>, e: Envelope)
    requires NeverLast(log) && Guards(seen, log) && Founded(seen, log)
    ensures IsFresh(seen, e) <==> Newest(log, e)
  {
    if IsFresh(seen, e) {
      forall f | Accepted(f) in log && f.origin == e.origin ensures f.counter < e.counter {
        var i :| 0 <= i < |log| && log[i] == Accepted(f);
        assert log[i].envelope.origin in seen;
      }
    } else {
      assert Follows(log, e.origin, seen[e.origin]);
      var f :| Accepted(f) in log && f.origin == e.origin && seen[e.origin] == Successor(f.counter);
      var i :| 0 <= i < |log| && log[i] == Accepted(f);
      assert log[i].envelope.counter + 1 < U64_LIMIT;
    }
  }

  lemma FollowsStep(log: seq<Event>, ev: Event, origin: U64, next: U64)
    requires Follows(log, origin, next)
    ensures Follows(log + [ev], origin, next)
  {
    var e :| Accepted(e) in log && e.origin == origin && next == Successor(e.counter);
    assert Accepted(e) in log + [ev];
  }

  lemma FoundedStep(seen: Seen, log: seq<Event>, ev: Event)
    requires Founded(seen, log)
    ensures Founded(seen, log + [ev])
  {
    hide Follows;
    forall origin | origin in seen && seen[origin] != 0 ensures Follows(log + [ev], origin, seen[origin]) {
      FollowsStep(log, ev, origin, seen[origin]);
    }
  }

  lemma FoundedAccept(seen: Seen, log: seq<Event>, e: Envelope)
    requires Founded(seen, log) && IsFresh(seen, e)
    ensures Founded(SeenAfter(seen, e), log + [Accepted(e)])
  {
    hide Follows;
    FoundedStep(seen, log, Accepted(e));
    FollowsAccepted(log, e);
  }

  lemma FollowsAccepted(log: seq<Event>, e: Envelope)
    ensures Follows(log + [Accepted(e)], e.origin, Successor(e.counter))
  {
    assert (log + [Accepted(e)])[|log|] == Accepted(e);
  }

  lemma FoundedSkip(seen: Seen, log: seq<Event>, e: Envelope)
    requires Founded(seen, log) && !IsFresh(seen, e)
    ensures Founded(SeenAfter(seen, e), log)
  {
    hide Follows;
  }

  /** The very last counter defeats the guard: accepted, it is accepted again. */
  lemma LastCounterReplays(seen: Seen, e: Envelope)
    requires e.counter == U64_LIMIT - 1
    ensures IsFresh(seen, e) && IsFresh(SeenAfter(seen, e), e)
  {
  }

  /** An accepted envelope is refused from then on exactly when its counter is not that one. */
  lemma RefusedAgainIff(seen: Seen, e: Envelope)
    requires IsFresh(seen, e)
    ensures !IsFresh(SeenAfter(seen, e), e) <==> e.counter != U64_LIMIT - 1
  {
  }

  /** An envelope overtaken by a later one of its origin is refused: messages may be lost, never repeated. */
  lemma OvertakenIsRefused(seen: Seen, e: Envelope, later: Envelope)
    requires e.origin == later.origin && e.counter < later.counter && IsFresh(seen, later)
    ensures IsFresh(SeenAfter(seen, later), e) <==> later.counter == U64_LIMIT - 1
  {
  }

  lemma AcceptKeeps(seen: Seen, log: seq<Event>, e: Envelope)
    requires IsFresh(seen, e) && (NeverLast(log) ==> Increasing(log) && Guards(seen, log))
    ensures var log' := log + [Accepted(e)];
            NeverLast(log') ==> Increasing(log') && Guards(SeenAfter(seen, e), log')
  {
    var log' := log + [Accepted(e)];
    if NeverLast(log') {
      assert forall i :: 0 <= i < |log| ==> log'[i] == log[i];
      assert log'[|log|] == Accepted(e);
      assert Successor(e.counter) == e.counter + 1;
    }
  }

  /** An event that accepts nothing changes none of this. */
  lemma OtherKeeps(seen: Seen, log: seq<Event>, ev: Event)
    requires !ev.Accepted? && (NeverLast(log) ==> Increasing(log) && Guards(seen, log))
    ensures var log' := log + [ev];
            NeverLast(log') ==> Increasing(log') && Guards(seen, log')
  {
    var log' := log + [ev];
    assert forall i :: 0 <= i < |log| ==> log'[i] == log[i];
  }

  lemma SkipKeeps(seen: Seen, log: seq<Event>, e: Envelope)
    requires !IsFresh(seen, e) && (NeverLast(log) ==> Increasing(log) && Guards(seen, log))
    ensures NeverLast(log) ==> Increasing(log) && Guards(SeenAfter(seen, e), log)
  {
  }

  // ----- One more event keeps the promises -----------------------------------------------------------------------

  lemma OwesStep(log: seq<Event>, ev: Event)
    ensures Owes(log + [ev]) <==> ev.Lost? || (Owes(log) && !ev.Reset? && !ev.Attached?)
  {
    var log' := log + [ev];
    assert forall i :: 0 <= i < |log| ==> log'[i] == log[i];
    if i :| 0 <= i < |log| && log[i].Lost? && forall k :: i < k < |log| ==> !log[k].Reset? && !log[k].Attached? {
      if !ev.Reset? && !ev.Attached? {
        assert log'[i].Lost?;
      }
    }
    if ev.Lost? {
      assert log'[|log|].Lost?;
    }
    if i :| 0 <= i < |log'| && log'[i].Lost? && forall k :: i < k < |log'| ==> !log'[k].Reset? && !log'[k].Attached? {
      if i < |log| {
        assert log'[|log|] == ev;
        assert log[i].Lost?;
      }
    }
  }

  /** Events other than acceptance, dispatch and resolution promise nothing new. */
  predicate Quiet(ev: Event) { ev.Lost? || ev.Reset? || ev.Attached? || ev.Sealed? || ev.Started? || ev.Freed? }

  lemma QuietKeeps(log: seq<Event>, node: U64, ids: seq<U64>, ev: Event)
    requires Promises(log, node, ids) && Quiet(ev)
    ensures Promises(log + [ev], node, ids)
  {
    hide NeverLast, Increasing;
    SameUpTo(log, ev);
    LatestIncreasing(log, ev);
    ResetStep(log, ev);
  }

  lemma SameUpTo(log: seq<Event>, ev: Event)
    ensures forall i :: 0 <= i < |log| ==> (log + [ev])[i] == log[i]
    ensures (log + [ev])[|log|] == ev
  {
  }

  lemma LatestIncreasing(log: seq<Event>, ev: Event)
    requires (NeverLast(log) ==> Increasing(log)) && !ev.Accepted?
    ensures NeverLast(log + [ev]) ==> Increasing(log + [ev])
  {
    SameUpTo(log, ev);
  }

  lemma ResetStep(log: seq<Event>, ev: Event)
    requires ResetFirst(log) && (ev.Dispatched? ==> !Owes(log))
    ensures ResetFirst(log + [ev])
  {
    var log' := log + [ev];
    SameUpTo(log, ev);
    forall i, j | 0 <= i < j < |log'| && log'[i].Lost? && log'[j].Dispatched?
      ensures exists k :: i < k < j && (log'[k].Reset? || log'[k].Attached?)
    {
      if j < |log| {
        var k :| i < k < j && (log[k].Reset? || log[k].Attached?);
        assert log'[k] == log[k];
      } else {
        assert log[i].Lost?;
        var k :| i < k < |log| && (log[k].Reset? || log[k].Attached?);
        assert log'[k] == log[k];
      }
    }
  }

  lemma AcceptedKeeps(log: seq<Event>, node: U64, ids: seq<U64>, e: Envelope)
    requires Promises(log, node, ids) && e.origin != node
    requires NeverLast(log + [Accepted(e)]) ==> Increasing(log + [Accepted(e)])
    ensures Promises(log + [Accepted(e)], node, ids)
  {
    hide NeverLast, Increasing;
    SameUpTo(log, Accepted(e));
    ResetStep(log, Accepted(e));
  }

  lemma DispatchedKeeps(log: seq<Event>, node: U64, ids: seq<U64>, e: Envelope)
    requires Promises(log, node, ids) && log != [] && log[|log| - 1] == Accepted(e) && !Owes(log)
    ensures Promises(log + [Dispatched(e)], node, ids)
  {
    hide NeverLast, Increasing;
    SameUpTo(log, Dispatched(e));
    LatestIncreasing(log, Dispatched(e));
    ResetStep(log, Dispatched(e));
  }

  lemma ResolvedKeeps(log: seq<Event>, node: U64, ids: seq<U64>, call: nat, e: Envelope)
    requires Promises(log, node, ids) && log != [] && log[|log| - 1] == Dispatched(e)
    requires call < |ids| && e.body.Reply? && e.body.to == node && e.body.id == ids[call]
    requires forall i :: 0 <= i < |log| && log[i].Resolved? ==> log[i].call != call
    ensures Promises(log + [Resolved(call, e)], node, ids)
  {
    hide NeverLast, Increasing;
    SameUpTo(log, Resolved(call, e));
    LatestIncreasing(log, Resolved(call, e));
    ResetStep(log, Resolved(call, e));
  }

  /** Whatever the event, waiters keep waiting unless it resolves their call. */
  ghost predicate AllWaiting(pending: map<U64, nat>, ids: seq<U64>, log: seq<Event>) {
    forall id :: id in pending ==>
      && pending[id] < |ids| && ids[pending[id]] == id
      && forall i :: 0 <= i < |log| && log[i].Resolved? ==> log[i].call != pending[id]
  }

  lemma WaitingStep(pending: map<U64, nat>, ids: seq<U64>, log: seq<Event>, ev: Event)
    requires AllWaiting(pending, ids, log)
    requires ev.Resolved? ==> forall id :: id in pending ==> pending[id] != ev.call
    ensures AllWaiting(pending, ids, log + [ev])
  {
    SameUpTo(log, ev);
  }

  ghost predicate SentBelow(log: seq<Event>, sends: nat) {
    SentIncreasing(log) && forall i :: 0 <= i < |log| && log[i].Sealed? ==> log[i].envelope.counter < sends
  }

  /** All that is known of a node's history: its promises, its guard, its waiters, its own counters. */
  ghost predicate Kept(log: seq<Event>, node: U64, ids: seq<U64>, seen: Seen, pending: map<U64, nat>, sends: nat) {
    && Promises(log, node, ids)
    && (NeverLast(log) ==> Guards(seen, log)) && Founded(seen, log)
    && AllWaiting(pending, ids, log)
    && (sends < U64_LIMIT ==> SentBelow(log, sends))
  }

  lemma SentSame(log: seq<Event>, ev: Event, sends: nat)
    requires SentBelow(log, sends) && !ev.Sealed?
    ensures SentBelow(log + [ev], sends)
  {
    SameUpTo(log, ev);
  }

  lemma QuietStep(log: seq<Event>, node: U64, ids: seq<U64>, seen: Seen, pending: map<U64, nat>, sends: nat, ev: Event)
    requires Kept(log, node, ids, seen, pending, sends) && Quiet(ev) && !ev.Sealed?
    ensures Kept(log + [ev], node, ids, seen, pending, sends)
    ensures Owes(log + [ev]) <==> ev.Lost? || (Owes(log) && !ev.Reset? && !ev.Attached?)
  {
    KeptPromises(log, node, ids, seen, pending, sends);
    hide NeverLast, Increasing, Promises, Owes, Guards, Founded, AllWaiting, SentBelow;
    QuietKeeps(log, node, ids, ev);
    OtherKeeps(seen, log, ev);
    FoundedStep(seen, log, ev);
    WaitingStep(pending, ids, log, ev);
    OwesStep(log, ev);
    if sends < U64_LIMIT {
      SentSame(log, ev, sends);
    }
  }

  lemma KeptPromises(log: seq<Event>, node: U64, ids: seq<U64>, seen: Seen, pending: map<U64, nat>, sends: nat)
    requires Kept(log, node, ids, seen, pending, sends)
    ensures NeverLast(log) ==> Increasing(log) && Guards(seen, log)
  {
  }

  lemma SealedStep(log: seq<Event>, node: U64, ids: seq<U64>, seen: Seen, pending: map<U64, nat>, sends: nat, e: Envelope)
    requires Kept(log, node, ids, seen, pending, sends) && (sends < U64_LIMIT ==> e.counter == sends)
    ensures Kept(log + [Sealed(e)], node, ids, seen, pending, sends + 1)
    ensures Owes(log + [Sealed(e)]) <==> Owes(log)
  {
    KeptPromises(log, node, ids, seen, pending, sends);
    hide NeverLast, Increasing, Promises, Owes, Guards, Founded, AllWaiting, SentBelow;
    QuietKeeps(log, node, ids, Sealed(e));
    OtherKeeps(seen, log, Sealed(e));
    FoundedStep(seen, log, Sealed(e));
    WaitingStep(pending, ids, log, Sealed(e));
    OwesStep(log, Sealed(e));
    if sends < U64_LIMIT {
      SentNext(log, e);
    }
  }

  lemma SentNext(log: seq<Event>, e: Envelope)
    requires SentBelow(log, e.counter)
    ensures SentBelow(log + [Sealed(e)], e.counter + 1)
  {
    SameUpTo(log, Sealed(e));
  }

  lemma SendFailed(log: seq<Event>, node: U64, ids: seq<U64>, seen: Seen, pending: map<U64, nat>, sends: nat)
    requires Kept(log, node, ids, seen, pending, sends)
    ensures Kept(log, node, ids, seen, pending, sends + 1)
  {
    hide NeverLast, Increasing, Promises, Guards, Founded, AllWaiting;
  }

  lemma AcceptStep(log: seq<Event>, node: U64, ids: seq<U64>, seen: Seen, pending: map<U64, nat>, sends: nat, e: Envelope)
    requires Kept(log, node, ids, seen, pending, sends) && IsFresh(seen, e) && e.origin != node
    ensures Kept(log + [Accepted(e)], node, ids, SeenAfter(seen, e), pending, sends)
    ensures Owes(log + [Accepted(e)]) <==> Owes(log)
  {
    KeptPromises(log, node, ids, seen, pending, sends);
    hide NeverLast, Increasing, Promises, Owes, Guards, Founded, AllWaiting, SentBelow;
    AcceptKeeps(seen, log, e);
    FoundedAccept(seen, log, e);
    AcceptedKeeps(log, node, ids, e);
    WaitingStep(pending, ids, log, Accepted(e));
    OwesStep(log, Accepted(e));
    if sends < U64_LIMIT {
      SentSame(log, Accepted(e), sends);
    }
  }

  lemma SkipStep(log: seq<Event>, node: U64, ids: seq<U64>, seen: Seen, pending: map<U64, nat>, sends: nat, e: Envelope)
    requires Kept(log, node, ids, seen, pending, sends) && !IsFresh(seen, e)
    ensures Kept(log, node, ids, SeenAfter(seen, e), pending, sends)
  {
    KeptPromises(log, node, ids, seen, pending, sends);
    hide NeverLast, Increasing, Promises, Guards, Founded, AllWaiting, SentBelow;
    SkipKeeps(seen, log, e);
    FoundedSkip(seen, log, e);
  }

  lemma DispatchStep(log: seq<Event>, node: U64, ids: seq<U64>, seen: Seen, pending: map<U64, nat>, sends: nat, e: Envelope)
    requires Kept(log, node, ids, seen, pending, sends) && log != [] && log[|log| - 1] == Accepted(e) && !Owes(log)
    ensures Kept(log + [Dispatched(e)], node, ids, seen, pending, sends) && !Owes(log + [Dispatched(e)])
  {
    KeptPromises(log, node, ids, seen, pending, sends);
    hide NeverLast, Increasing, Promises, Owes, Guards, Founded, AllWaiting, SentBelow;
    DispatchedKeeps(log, node, ids, e);
    OtherKeeps(seen, log, Dispatched(e));
    FoundedStep(seen, log, Dispatched(e));
    WaitingStep(pending, ids, log, Dispatched(e));
    OwesStep(log, Dispatched(e));
    if sends < U64_LIMIT {
      SentSame(log, Dispatched(e), sends);
    }
  }

  lemma ResolveStep(log: seq<Event>, node: U64, ids: seq<U64>, seen: Seen, pending: map<U64, nat>, sends: nat, e: Envelope)
    requires Kept(log, node, ids, seen, pending, sends) && log != [] && log[|log| - 1] == Dispatched(e) && !Owes(log)
    requires e.body.Reply? && e.body.to == node && e.body.id in pending
    ensures var log' := log + [Resolved(pending[e.body.id], e)];
            Kept(log', node, ids, seen, pending - {e.body.id}, sends) && !Owes(log')
  {
    KeptPromises(log, node, ids, seen, pending, sends);
    OneWaiter(pending, ids, log, e.body.id);
    hide NeverLast, Increasing, Promises, Owes, Guards, Founded, AllWaiting, SentBelow;
    var ev := Resolved(pending[e.body.id], e);
    ResolvedKeeps(log, node, ids, pending[e.body.id], e);
    OtherKeeps(seen, log, ev);
    FoundedStep(seen, log, ev);
    WaitingStep(pending - {e.body.id}, ids, log, ev);
    OwesStep(log, ev);
    if sends < U64_LIMIT {
      SentSame(log, ev, sends);
    }
  }

  lemma OneWaiter(pending: map<U64, nat>, ids: seq<U64>, log: seq<Event>, id: U64)
    requires AllWaiting(pending, ids, log) && id in pending
    ensures AllWaiting(pending - {id}, ids, log)
    ensures forall other :: other in pending - {id} ==> (pending - {id})[other] != pending[id]
    ensures pending[id] < |ids| && ids[pending[id]] == id
    ensures forall i :: 0 <= i < |log| && log[i].Resolved? ==> log[i].call != pending[id]
  {
  }

  lemma CallStep(log: seq<Event>, node: U64, ids: seq<U64>, seen: Seen, pending: map<U64, nat>, sends: nat, id: U64)
    requires Kept(log, node, ids, seen, pending, sends)
    ensures Kept(log + [Started(|ids|, id)], node, ids + [id], seen, pending[id := |ids|], sends)
    ensures Owes(log + [Started(|ids|, id)]) <==> Owes(log)
  {
    MoreIds(log, node, ids, id);
    NewWaiter(log, node, ids, pending, id);
    hide NeverLast, Increasing, Promises, Owes, Guards, Founded, AllWaiting, SentBelow;
    QuietStep(log, node, ids + [id], seen, pending[id := |ids|], sends, Started(|ids|, id));
  }

  lemma MoreIds(log: seq<Event>, node: U64, ids: seq<U64>, id: U64)
    requires Promises(log, node, ids)
    ensures Promises(log, node, ids + [id])
  {
    hide NeverLast, Increasing, ResetFirst, NeverOwn, DispatchedOnce, ResolvedOnce;
  }

  /** A new call's number is larger than that of any call resolved so far. */
  lemma NewWaiter(log: seq<Event>, node: U64, ids: seq<U64>, pending: map<U64, nat>, id: U64)
    requires Promises(log, node, ids) && AllWaiting(pending, ids, log)
    ensures AllWaiting(pending[id := |ids|], ids + [id], log)
  {
    hide NeverLast, Increasing, ResetFirst, NeverOwn, DispatchedOnce, ResolvedOnce;
  }

  lemma FinishStep(log: seq<Event>, node: U64, ids: seq<U64>, seen: Seen, pending: map<U64, nat>, sends: nat, id: U64)
    requires Kept(log, node, ids, seen, pending, sends)
    ensures Kept(log, node, ids, seen, pending - {id}, sends)
  {
    hide NeverLast, Increasing, Promises, Guards, Founded, SentBelow;
  }

  // ----- The node ------------------------------------------------------------------------------------------------------

  /** A sealed message on its way to the queue; `again` if a failure is answered with an error reply. */
  datatype Outgoing = Outgoing(envelope: Envelope, again: bool)

  /** Nothing is sent that was not sealed here. */
  ghost predicate OnlySealed(log: seq<Event>, outgoing: seq<Outgoing>, outbox: seq<Envelope>) {
    && (forall o :: o in outgoing ==> Sealed(o.envelope) in log && (o.again ==> o.envelope.body.Reply?))
    && forall e :: e in outbox ==> Sealed(e) in log
  }

  /** All of a node: its fields, its history and the calls its callers wait for. */
  datatype State = State(
    node: U64, counter: U64, attached: bool, listening: bool, outgoing: seq<Outgoing>, outbox: seq<Envelope>,
    pending: map<U64, nat>, nextCall: U64, seen: Seen, running: seq<(U64, U64)>, ids: seq<U64>, log: seq<Event>,
    active: set<U64>)

  /** The events an opened envelope causes. */
  function Consequences(s: State, e: Envelope): seq<Event> {
    if e.origin == s.node || !IsFresh(s.seen, e) then []
    else if !s.attached then [Accepted(e)]
    else if e.body.Reply? && e.body.to == s.node && e.body.id in s.pending
    then [Accepted(e), Dispatched(e), Resolved(s.pending[e.body.id], e)]
    else [Accepted(e), Dispatched(e)]
  }

  /** What is sent for a call that was run: its answer, or else an error, or nothing. */
  function Answer(node: U64, to: U64, id: U64, from: U64, answered: bool, succeeded: bool, seals: bool, sealsError: bool)
    : (out: seq<Outgoing>)
    ensures |out| <= 1 && (out != [] <==> answered && (seals || sealsError))
    ensures forall o :: o in out ==> Answers(Sealed(o.envelope), to, id)
  {
    if !answered then []
    else if seals then [Outgoing(Envelope(node, from, Reply(to, id, succeeded)), true)]
    else if sealsError then [Outgoing(Envelope(node, Successor(from), Reply(to, id, false)), false)]
    else []
  }

  ghost function SealedAll(os: seq<Outgoing>): seq<Event> {
    seq(|os|, i requires 0 <= i < |os| => Sealed(os[i].envelope))
  }

  lemma SealedStays(log: seq<Event>, outgoing: seq<Outgoing>, outbox: seq<Envelope>, more: seq<Event>)
    requires OnlySealed(log, outgoing, outbox)
    ensures OnlySealed(log + more, outgoing, outbox)
  {
  }

  // ----- Calls and their answers ---------------------------------------------------------------------------

  /** The node passed a call of that origin and id to its sink. */
  ghost predicate Called(log: seq<Event>, origin: U64, id: U64) {
    exists f :: Dispatched(f) in log && f.origin == origin && f.body.Call? && f.body.id == id
  }

  /** Every reply sealed answers a call that was dispatched before. */
  ghost predicate RepliesAnswer(log: seq<Event>) {
    forall i :: 0 <= i < |log| && log[i].Sealed? && log[i].envelope.body.Reply? ==>
      Called(log[..i], log[i].envelope.body.to, log[i].envelope.body.id)
  }

  /** Every call sealed was started under its id. */
  ghost predicate CallsStarted(log: seq<Event>, ids: seq<U64>) {
    forall e :: Sealed(e) in log && e.body.Call? ==> e.body.id in ids
  }

  /** Every device call being run was dispatched. */
  ghost predicate AllCalled(log: seq<Event>, running: seq<(U64, U64)>) {
    forall c :: c in running ==> Called(log, c.0, c.1)
  }

  function RunningNext(running: seq<(U64, U64)>, ev: Event): seq<(U64, U64)> {
    match ev
    case Dispatched(e) =>
      if e.body.Call? && |running| < MAX_INBOUND_CALLS then running + [(e.origin, e.body.id)] else running
    case Freed(k, _, _, _) => if k < |running| then running[..k] + running[k + 1..] else running
    case _ => running
  }

  /** The device calls being run: those dispatched that found a place, less those that gave it back. */
  function RunningAfter(log: seq<Event>): seq<(U64, U64)> {
    if log == [] then [] else RunningNext(RunningAfter(log[..|log| - 1]), log[|log| - 1])
  }

  lemma RunningStep(log: seq<Event>, ev: Event)
    ensures RunningAfter(log + [ev]) == RunningNext(RunningAfter(log), ev)
  {
    assert (log + [ev])[..|log|] == log;
  }

  /** A place is given back by the call that had it, and only after that call was answered, if it was. */
  ghost predicate FreedRightly(log: seq<Event>) {
    forall i :: 0 <= i < |log| && log[i].Freed? ==> MayFree(log[..i], log[i])
  }

  ghost predicate MayFree(log: seq<Event>, ev: Event)
    requires ev.Freed?
  {
    && ev.place < |RunningAfter(log)| && RunningAfter(log)[ev.place] == (ev.origin, ev.id)
    && (ev.replied ==> log != [] && Answers(log[|log| - 1], ev.origin, ev.id))
  }

  /** A sealed reply to that call of that node. */
  predicate Answers(ev: Event, origin: U64, id: U64) {
    ev.Sealed? && ev.envelope.body.Reply? && ev.envelope.body.to == origin && ev.envelope.body.id == id
  }

  lemma FreedStep(log: seq<Event>, ev: Event)
    requires FreedRightly(log)
    requires ev.Freed? ==> MayFree(log, ev)
    ensures FreedRightly(log + [ev])
  {
    hide MayFree;
    var log' := log + [ev];
    forall i | 0 <= i < |log'| && log'[i].Freed? ensures MayFree(log'[..i], log'[i]) {
      assert log'[..i] == if i < |log| then log[..i] else log;
    }
  }

  /** Ids are handed out in order, and wrap. */
  ghost predicate Counted(ids: seq<U64>) {
    forall k :: 0 <= k < |ids| ==> ids[k] == k % U64_LIMIT
  }

  ghost predicate Wired(log: seq<Event>, running: seq<(U64, U64)>, ids: seq<U64>) {
    && RepliesAnswer(log) && CallsStarted(log, ids) && AllCalled(log, running) && Counted(ids)
    && running == RunningAfter(log) && FreedRightly(log)
  }

  lemma CalledStays(log: seq<Event>, more: seq<Event>, origin: U64, id: U64)
    requires Called(log, origin, id)
    ensures Called(log + more, origin, id)
  {
    var f :| Dispatched(f) in log && f.origin == origin && f.body.Call? && f.body.id == id;
    assert Dispatched(f) in log + more;
  }

  lemma RepliesStep(log: seq<Event>, ev: Event)
    requires RepliesAnswer(log)
    requires ev.Sealed? && ev.envelope.body.Reply? ==> Called(log, ev.envelope.body.to, ev.envelope.body.id)
    ensures RepliesAnswer(log + [ev])
  {
    hide Called;
    var log' := log + [ev];
    forall i | 0 <= i < |log'| && log'[i].Sealed? && log'[i].envelope.body.Reply?
      ensures Called(log'[..i], log'[i].envelope.body.to, log'[i].envelope.body.id)
    {
      assert log'[..i] == if i < |log| then log[..i] else log;
    }
  }

  lemma WiredStep(log: seq<Event>, running: seq<(U64, U64)>, ids: seq<U64>, ev: Event)
    requires Wired(log, running, ids) && !ev.Freed? && !(ev.Dispatched? && ev.envelope.body.Call?)
    requires ev.Sealed? && ev.envelope.body.Reply? ==> Called(log, ev.envelope.body.to, ev.envelope.body.id)
    requires ev.Sealed? && ev.envelope.body.Call? ==> ev.envelope.body.id in ids
    ensures Wired(log + [ev], running, ids)
  {
    hide Called, RepliesAnswer, Counted, RunningAfter, FreedRightly;
    RepliesStep(log, ev);
    RunningStep(log, ev);
    FreedStep(log, ev);
    forall c | c in running ensures Called(log + [ev], c.0, c.1) {
      CalledStays(log, [ev], c.0, c.1);
    }
  }

  /** Call ids count up and wrap. */
  lemma NextId(calls: nat)
    ensures Successor(calls % U64_LIMIT) == (calls + 1) % U64_LIMIT
  {
  }

  /** One more call under the next id. */
  lemma WiredCall(log: seq<Event>, running: seq<(U64, U64)>, ids: seq<U64>)
    requires Wired(log, running, ids)
    ensures Wired(log, running, ids + [|ids| % U64_LIMIT])
  {
    hide RepliesAnswer, AllCalled, RunningAfter, FreedRightly;
  }

  /** A dispatched call is run if there is a place, a finished one no more. */
  lemma WiredRun(log: seq<Event>, running: seq<(U64, U64)>, ids: seq<U64>, e: Envelope)
    requires Wired(log, running, ids) && e.body.Call?
    ensures Wired(log + [Dispatched(e)],
                  if |running| < MAX_INBOUND_CALLS then running + [(e.origin, e.body.id)] else running, ids)
  {
    hide RepliesAnswer, Counted, RunningAfter, FreedRightly, Called;
    var ev := Dispatched(e);
    RepliesStep(log, ev);
    RunningStep(log, ev);
    FreedStep(log, ev);
    CalledNow(log, e);
    forall c | c in running ensures Called(log + [ev], c.0, c.1) {
      CalledStays(log, [ev], c.0, c.1);
    }
  }

  lemma CalledNow(log: seq<Event>, e: Envelope)
    requires e.body.Call?
    ensures Called(log + [Dispatched(e)], e.origin, e.body.id)
  {
    SameUpTo(log, Dispatched(e));
    assert Dispatched(e) in log + [Dispatched(e)];
  }

  lemma RunningCalled(log: seq<Event>, running: seq<(U64, U64)>, ids: seq<U64>, k: nat)
    requires Wired(log, running, ids) && k < |running|
    ensures Called(log, running[k].0, running[k].1)
  {
    hide RepliesAnswer, CallsStarted, Counted, Called, RunningAfter, FreedRightly;
    assert running[k] in running;
  }

  lemma WiredServed(log: seq<Event>, running: seq<(U64, U64)>, ids: seq<U64>, k: nat, replied: bool)
    requires Wired(log, running, ids) && k < |running|
    requires replied ==> log != [] && Answers(log[|log| - 1], running[k].0, running[k].1)
    ensures Wired(log + [Freed(k, running[k].0, running[k].1, replied)], running[..k] + running[k + 1..], ids)
  {
    hide RepliesAnswer, Counted, Called, RunningAfter, FreedRightly, Answers;
    var ev := Freed(k, running[k].0, running[k].1, replied);
    RepliesStep(log, ev);
    RunningStep(log, ev);
    FreedStep(log, ev);
    forall c | c in running ensures Called(log + [ev], c.0, c.1) {
      CalledStays(log, [ev], c.0, c.1);
    }
  }

  lemma WiredReplies(log: seq<Event>, running: seq<(U64, U64)>, ids: seq<U64>)
    requires Wired(log, running, ids)
    ensures RepliesAnswer(log)
  {
  }

  /** A reply on its way was sealed, so its call was dispatched. */
  lemma SealedAnswers(log: seq<Event>, e: Envelope)
    requires RepliesAnswer(log) && Sealed(e) in log && e.body.Reply?
    ensures Called(log, e.body.to, e.body.id)
  {
    hide Called;
    var i :| 0 <= i < |log| && log[i] == Sealed(e);
    assert log == log[..i] + log[i..];
    CalledStays(log[..i], log[i..], e.body.to, e.body.id);
  }

  class Node {
    const node: U64
    var counter: U64
    var attached: bool
    var listening: bool
    var outgoing: seq<Outgoing>
    var outbox: seq<Envelope>
    var pending: map<U64, nat>
    var nextCall: U64
    var seen: Seen
    var running: seq<(U64, U64)>
    var ids: seq<U64>
    ghost var log: seq<Event>
    ghost var sends: nat
    ghost var active: set<U64>

    ghost function Now(): (s: State)
      reads this
    {
      State(node, counter, attached, listening, outgoing, outbox, pending, nextCall, seen, running, ids, log, active)
    }

    ghost predicate Valid()
      reads this
    {
      && Kept(log, node, ids, seen, pending, sends)
      && (sends < U64_LIMIT ==> counter == sends)
      && (listening && attached ==> !Owes(log))
      && |outbox| <= OUTBOX_CAPACITY && |running| <= MAX_INBOUND_CALLS
      && pending.Keys <= active
      && OnlySealed(log, outgoing, outbox)
      && Wired(log, running, ids) && nextCall == |ids| % U64_LIMIT
    }

    constructor (node: U64)
      ensures Valid() && this.node == node && !attached && listening && counter == 0 && nextCall == 0 && sends == 0
      ensures outgoing == [] && outbox == [] && pending == map[] && seen == map[] && running == [] && ids == []
      ensures log == [] && active == {}
    {
      this.node := node;
      counter, attached, listening, outgoing, outbox := 0, false, true, [], [];
      pending, nextCall, seen, running := map[], 0, map[], [];
      ids, log, sends, active := [], [], 0, {};
    }

    /** A message was given the next counter and, if it could be sealed, is on its way. */
    ghost predicate Sends(from: U64, before: seq<Outgoing>, history: seq<Event>, body: Body, again: bool, seals: bool)
      reads this
    {
      var e := Envelope(node, from, body);
      && counter == Successor(from)
      && outgoing == (if seals then before + [Outgoing(e, again)] else before)
      && log == (if seals then history + [Sealed(e)] else history)
    }

    /** Takes a counter, then seals: a message that cannot be sealed leaves a gap. */
    method Seal(body: Body, again: bool, seals: bool)
      requires Valid() && (again ==> body.Reply?)
      requires (body.Reply? ==> Called(log, body.to, body.id)) && (body.Call? ==> body.id in ids)
      modifies this`counter, this`outgoing, this`log, this`sends
      ensures Valid() && sends == old(sends) + 1
      ensures Sends(old(counter), old(outgoing), old(log), body, again, seals)
    {
      hide Kept, Owes, Wired, Called;
      var e := Envelope(node, counter, body);
      if seals {
        SealedStep(log, node, ids, seen, pending, sends, e);
        SealedStays(log, outgoing, outbox, [Sealed(e)]);
        WiredStep(log, running, ids, Sealed(e));
        outgoing := outgoing + [Outgoing(e, again)];
        log := log + [Sealed(e)];
      } else {
        SendFailed(log, node, ids, seen, pending, sends);
      }
      counter := Successor(counter);
      sends := sends + 1;
    }

    /** Queueing is a step of its own: concurrent sends may overtake each other here. */
    method Enqueue(k: nat, sealsError: bool) returns (ok: bool)
      requires Valid() && k < |outgoing|
      modifies this`outgoing, this`outbox, this`counter, this`log, this`sends
      ensures Valid() && ok == (|old(outbox)| < OUTBOX_CAPACITY)
      ensures outbox == if ok then old(outbox) + [old(outgoing)[k].envelope] else old(outbox)
      ensures old(outgoing)[k].again ==> old(outgoing)[k].envelope.body.Reply?
      ensures Now() == Queued(old(Now()), k, sealsError)
      ensures var (rest, o) := (old(outgoing)[..k] + old(outgoing)[k + 1..], old(outgoing)[k]);
              if ok || !o.again then outgoing == rest && log == old(log) && counter == old(counter) && sends == old(sends)
              else Sends(old(counter), rest, old(log), Reply(o.envelope.body.to, o.envelope.body.id, false), false, sealsError)
                   && sends == old(sends) + 1
    {
      hide Kept, Owes, Wired, Called;
      var o := outgoing[k];
      assert o in outgoing;
      outgoing := outgoing[..k] + outgoing[k + 1..];
      ok := |outbox| < OUTBOX_CAPACITY;
      if ok {
        outbox := outbox + [o.envelope];
      } else if o.again {
        WiredReplies(log, running, ids);
        SealedAnswers(log, o.envelope);
        Seal(Reply(o.envelope.body.to, o.envelope.body.id, false), false, sealsError);
      }
    }

    /** A call takes the next id and waits under it; a message that cannot be sealed ends it at once. */
    method StartCall(topic: string, seals: bool) returns (id: U64)
      requires Valid()
      modifies this`nextCall, this`ids, this`pending, this`active, this`counter, this`outgoing, this`log, this`sends
      ensures Valid() && id == old(nextCall) && nextCall == Successor(id) && ids == old(ids) + [id]
      ensures pending == if seals then old(pending)[id := |old(ids)|] else old(pending) - {id}
      ensures active == if seals then old(active) + {id} else old(active) - {id}
      ensures sends == old(sends) + 1
      ensures Sends(old(counter), old(outgoing), old(log) + [Started(|old(ids)|, id)], Call(id, topic), false, seals)
    {
      hide Kept, Owes, Wired, Called;
      id := Wait();
      Seal(Call(id, topic), false, seals);
      if !seals {
        FinishCall(id);
        assert old(active) + {id} - {id} == old(active) - {id};
        assert old(pending)[id := |old(ids)|] - {id} == old(pending) - {id};
      }
    }

    method Wait() returns (id: U64)
      requires Valid()
      modifies this`nextCall, this`ids, this`pending, this`active, this`log
      ensures Valid() && id == old(nextCall) && nextCall == Successor(id)
      ensures ids == old(ids) + [id] && active == old(active) + {id}
      ensures pending == old(pending)[id := |old(ids)|] && log == old(log) + [Started(|old(ids)|, id)]
    {
      hide Kept, Owes, Wired, Called, OnlySealed, Successor;
      id := nextCall;
      NextId(|ids|);
      var call := |ids|;
      CallStep(log, node, ids, seen, pending, sends, id);
      SealedStays(log, outgoing, outbox, [Started(call, id)]);
      WiredCall(log, running, ids);
      WiredStep(log, running, ids + [id], Started(call, id));
      nextCall := Successor(nextCall);
      ids := ids + [id];
      active := active + {id};
      pending := pending[id := call];
      log := log + [Started(call, id)];
    }

    /** However a call ends (answered, timed out or dropped) its entry goes. */
    method FinishCall(id: U64)
      requires Valid()
      modifies this`pending, this`active
      ensures Valid() && pending == old(pending) - {id} && active == old(active) - {id}
    {
      hide Kept, Owes, Wired, Called;
      FinishStep(log, node, ids, seen, pending, sends, id);
      pending := pending - {id};
      active := active - {id};
    }

    method Publish(topic: string, seals: bool)
      requires Valid()
      modifies this`counter, this`outgoing, this`log, this`sends
      ensures Valid() && sends == old(sends) + 1
      ensures Sends(old(counter), old(outgoing), old(log), Publication(topic), false, seals)
    {
      Seal(Publication(topic), false, seals);
    }

    /** The sink can be set once. */
    method Attach()
      requires Valid()
      modifies this`attached, this`log
      ensures Valid() && attached
      ensures log == if old(attached) then old(log) else old(log) + [Attached]
    {
      hide Kept, Owes, Wired, Called;
      if !attached {
        QuietStep(log, node, ids, seen, pending, sends, Attached);
        SealedStays(log, outgoing, outbox, [Attached]);
        WiredStep(log, running, ids, Attached);
        attached := true;
        log := log + [Attached];
      }
    }

    method ResetOnce()
      requires Valid()
      modifies this`log
      ensures Valid() && log == if attached then old(log) + [Reset] else old(log)
      ensures attached ==> !Owes(log)
    {
      hide Kept, Owes, Wired, Called;
      if attached {
        QuietStep(log, node, ids, seen, pending, sends, Reset);
        SealedStays(log, outgoing, outbox, [Reset]);
        WiredStep(log, running, ids, Reset);
        log := log + [Reset];
      }
    }

    method LoseConnection()
      requires Valid() && listening
      modifies this`log, this`listening
      ensures Valid() && !listening
      ensures log == old(log) + [Lost] + (if attached then [Reset] else [])
    {
      hide Kept, Owes, Wired, Called;
      QuietStep(log, node, ids, seen, pending, sends, Lost);
      SealedStays(log, outgoing, outbox, [Lost]);
      WiredStep(log, running, ids, Lost);
      listening := false;
      log := log + [Lost];
      ResetOnce();
    }

    method Reconnect()
      requires Valid() && !listening
      modifies this`log, this`listening
      ensures Valid() && listening
      ensures log == old(log) + (if attached then [Reset] else [])
    {
      hide Kept, Owes, Wired, Called;
      ResetOnce();
      listening := true;
    }

    method Handle(envelope: Option<Envelope>)
      requires Valid() && listening
      modifies this`seen, this`pending, this`running, this`log
      ensures Valid()
      ensures envelope.None? ==> log == old(log) && seen == old(seen) && pending == old(pending) && running == old(running)
      ensures envelope.Some? ==>
                && log == old(log) + old(Consequences(Now(), envelope.value))
                && seen == (if envelope.value.origin == node then old(seen) else SeenAfter(old(seen), envelope.value))
                && pending == (if |old(Consequences(Now(), envelope.value))| == 3 then old(pending) - {envelope.value.body.id}
                               else old(pending))
      ensures envelope.Some? ==> Now() == Handled(old(Now()), envelope.value)
      ensures envelope.Some? ==>
                var e := envelope.value;
                running == if Dispatched(e) in old(Consequences(Now(), e)) && e.body.Call? && |old(running)| < MAX_INBOUND_CALLS
                           then old(running) + [(e.origin, e.body.id)] else old(running)
    {
      hide Kept, Owes, Wired, Called;
      if envelope.None? { return; }
      var e := envelope.value;
      if e.origin == node { return; }
      var isNew := Fresh(e);
      if !isNew || !attached { return; }
      Dispatch(e);
      assert old(log) + [Accepted(e)] + [Dispatched(e)] == old(log) + [Accepted(e), Dispatched(e)];
    }

    /** Passes an accepted envelope on: to the sink, to a device call, or to the call that waits for it. */
    method Dispatch(e: Envelope)
      requires Valid() && listening && attached && log != [] && log[|log| - 1] == Accepted(e)
      modifies this`pending, this`running, this`log
      ensures Valid()
      ensures var answers := e.body.Reply? && e.body.to == node && e.body.id in old(pending);
              && pending == (if answers then old(pending) - {e.body.id} else old(pending))
              && log == old(log) + [Dispatched(e)] + (if answers then [Resolved(old(pending)[e.body.id], e)] else [])
      ensures running == if e.body.Call? && |old(running)| < MAX_INBOUND_CALLS
                         then old(running) + [(e.origin, e.body.id)] else old(running)
    {
      hide Kept, Owes, Wired, Called;
      DispatchStep(log, node, ids, seen, pending, sends, e);
      SealedStays(log, outgoing, outbox, [Dispatched(e)]);
      match e.body {
        case Publication(_) =>
          WiredStep(log, running, ids, Dispatched(e));
          log := log + [Dispatched(e)];
        case Call(id, _) =>
          WiredRun(log, running, ids, e);
          log := log + [Dispatched(e)];
          if |running| < MAX_INBOUND_CALLS {
            running := running + [(e.origin, id)];
          }
        case Reply(to, id, _) =>
          WiredStep(log, running, ids, Dispatched(e));
          log := log + [Dispatched(e)];
          if to == node && id in pending {
            ghost var call := pending[id];
            ResolveStep(log, node, ids, seen, pending, sends, e);
            SealedStays(log, outgoing, outbox, [Resolved(call, e)]);
            WiredStep(log, running, ids, Resolved(call, e));
            pending := pending - {id};
            log := log + [Resolved(call, e)];
          }
      }
    }

    /** The replay guard: the counter must not have been reached before. */
    method Fresh(e: Envelope) returns (isNew: bool)
      requires Valid() && listening && e.origin != node
      modifies this`seen, this`log
      ensures Valid() && isNew == old(IsFresh(seen, e)) && seen == SeenAfter(old(seen), e)
      ensures log == if isNew then old(log) + [Accepted(e)] else old(log)
    {
      hide Kept, Owes, Wired, Called;
      isNew := e.counter >= LastSeen(seen, e.origin);
      if isNew {
        AcceptStep(log, node, ids, seen, pending, sends, e);
        SealedStays(log, outgoing, outbox, [Accepted(e)]);
        WiredStep(log, running, ids, Accepted(e));
        seen := seen[e.origin := Successor(e.counter)];
        log := log + [Accepted(e)];
      } else {
        SkipStep(log, node, ids, seen, pending, sends, e);
        seen := seen[e.origin := LastSeen(seen, e.origin)];
      }
    }

    /** A finished device call frees its place and answers, with an error if the answer is too big. */
    method Serve(k: nat, answered: bool, succeeded: bool, seals: bool, sealsError: bool)
      requires Valid() && k < |running|
      modifies this`running, this`counter, this`outgoing, this`log, this`sends
      ensures Valid() && running == old(running)[..k] + old(running)[k + 1..]
      ensures var (to, id) := old(running)[k];
              && outgoing == old(outgoing) + Answer(node, to, id, old(counter), answered, succeeded, seals, sealsError)
              && log == old(log) + SealedAll(Answer(node, to, id, old(counter), answered, succeeded, seals, sealsError))
                        + [Freed(k, to, id, answered && (seals || sealsError))]
      ensures sends == old(sends) + if !answered then 0 else if seals then 1 else 2
      ensures counter == if !answered then old(counter) else if seals then Successor(old(counter))
                         else Successor(Successor(old(counter)))
    {
      hide Kept, Owes, Wired, Called, FreedRightly, RunningAfter;
      var (to, id) := running[k];
      RunningCalled(log, running, ids, k);
      if answered {
        Seal(Reply(to, id, succeeded), true, seals);
        if !seals {
          Seal(Reply(to, id, false), false, sealsError);
        }
      }
      Free(k, answered && (seals || sealsError));
    }

    method Free(k: nat, ghost replied: bool)
      requires Valid() && k < |running|
      requires replied ==> log != [] && Answers(log[|log| - 1], running[k].0, running[k].1)
      modifies this`running, this`log
      ensures Valid() && running == old(running)[..k] + old(running)[k + 1..]
      ensures log == old(log) + [Freed(k, old(running)[k].0, old(running)[k].1, replied)]
    {
      hide Kept, Owes, Wired, Called, RunningAfter, FreedRightly, Answers;
      ghost var ev := Freed(k, running[k].0, running[k].1, replied);
      WiredServed(log, running, ids, k, replied);
      QuietStep(log, node, ids, seen, pending, sends, ev);
      SealedStays(log, outgoing, outbox, [ev]);
      running := running[..k] + running[k + 1..];
      log := log + [ev];
    }

    /** The publisher takes a batch from the front of the queue. */
    method Drain(n: nat) returns (batch: seq<Envelope>)
      requires Valid() && n <= |outbox|
      modifies this`outbox
      ensures Valid() && batch == old(outbox)[..n] && outbox == old(outbox)[n..]
      ensures forall e :: e in batch ==> Sealed(e) in log
    {
      hide Kept, Owes, Wired, Called;
      batch := outbox[..n];
      outbox := outbox[n..];
    }

    method TakeCalling(topic: string, seals: bool)
      requires Valid()
      modifies this
      ensures Valid() && Now() == After(old(Now()), Calling(topic, seals))
    {
      hide Kept, Owes, Wired, Called, OnlySealed, After, Successor;
      ghost var s := Now();
      var _ := StartCall(topic, seals);
      CallIs(s, Now(), topic, seals);
    }

    method TakeServed(k: nat, answered: bool, succeeded: bool, seals: bool, sealsError: bool)
      requires Valid()
      modifies this
      ensures Valid() && Now() == After(old(Now()), Served(k, answered, succeeded, seals, sealsError))
    {
      hide Kept, Owes, Wired, Called, OnlySealed, Answer, SealedAll, Successor, Answers, Finished;
      ghost var s := Now();
      if k < |running| {
        Serve(k, answered, succeeded, seals, sealsError);
        FinishedIs(s, Now(), k, answered, succeeded, seals, sealsError);
      }
    }

    /** One input, whatever the node is doing. */
    method Take(input: Input)
      requires Valid()
      modifies this
      ensures Valid() && Now() == After(old(Now()), input)
    {
      hide Kept, Owes, Wired, Called, OnlySealed, IsFresh, SeenAfter, Handled, Finished, Queued, Consequences, Waiting,
        Answer, SealedAll, Successor, Answers;
      match input
      case Notified(envelope) => if listening { Handle(envelope); }
      case ConnectionLost => if listening { LoseConnection(); }
      case Reconnected => if !listening { Reconnect(); }
      case SinkAttached => Attach();
      case Publishing(topic, seals) => Publish(topic, seals);
      case Calling(topic, seals) =>
        TakeCalling(topic, seals);
      case CallEnded(call) => FinishCall(call);
      case Served(k, answered, succeeded, seals, sealsError) =>
        TakeServed(k, answered, succeeded, seals, sealsError);
      case Queueing(k, sealsError) => if k < |outgoing| { var _ := Enqueue(k, sealsError); }
      case Batch(n) => if n <= |outbox| { var _ := Drain(n); }
    }
  }

  // ----- A whole run ------------------------------------------------------------------------------------------------------

  /** What may happen to a node, in any order and any number of times. */
  datatype Input =
    | Notified(envelope: Option<Envelope>)
    | ConnectionLost
    | Reconnected
    | SinkAttached
    | Publishing(topic: string, seals: bool)
    | Calling(topic: string, seals: bool)
    | CallEnded(id: U64)
    | Served(k: nat, answered: bool, succeeded: bool, seals: bool, sealsError: bool)
    | Queueing(k: nat, sealsError: bool)
    | Batch(n: nat)

  function NewNode(node: U64): State {
    State(node, 0, false, true, [], [], map[], 0, map[], [], [], [], {})
  }

  /** A message takes a counter and, if it can be sealed, is on its way. */
  function Sending(s: State, body: Body, again: bool, seals: bool): State {
    var e := Envelope(s.node, s.counter, body);
    var t := s.(counter := Successor(s.counter));
    if seals then t.(outgoing := s.outgoing + [Outgoing(e, again)], log := s.log + [Sealed(e)]) else t
  }

  function Resets(s: State): seq<Event> { if s.attached then [Reset] else [] }

  /** What an opened envelope leaves behind. */
  function Handled(s: State, e: Envelope): State {
    var events := Consequences(s, e);
    s.(seen := if e.origin == s.node then s.seen else SeenAfter(s.seen, e),
       pending := if |events| == 3 then s.pending - {e.body.id} else s.pending,
       running := if |events| == 2 && e.body.Call? && |s.running| < MAX_INBOUND_CALLS
                  then s.running + [(e.origin, e.body.id)] else s.running,
       log := s.log + events)
  }

  function Waiting(s: State): State {
    s.(nextCall := Successor(s.nextCall), ids := s.ids + [s.nextCall], pending := s.pending[s.nextCall := |s.ids|],
       active := s.active + {s.nextCall}, log := s.log + [Started(|s.ids|, s.nextCall)])
  }

  function CallOver(s: State, id: U64): State { s.(pending := s.pending - {id}, active := s.active - {id}) }

  /** A finished device call is answered, with an error if its answer cannot be sent, and gives its place back. */
  function Finished(s: State, k: nat, answered: bool, succeeded: bool, seals: bool, sealsError: bool): State
    requires k < |s.running|
  {
    var (to, id) := s.running[k];
    var t := if !answered then s
             else if seals then Sending(s, Reply(to, id, succeeded), true, true)
             else Sending(Sending(s, Reply(to, id, succeeded), true, false), Reply(to, id, false), false, sealsError);
    t.(running := s.running[..k] + s.running[k + 1..],
       log := t.log + [Freed(k, to, id, answered && (seals || sealsError))])
  }

  lemma FinishedIs(s: State, t: State, k: nat, answered: bool, succeeded: bool, seals: bool, sealsError: bool)
    requires k < |s.running|
    requires var (to, id) := s.running[k];
             var out := Answer(s.node, to, id, s.counter, answered, succeeded, seals, sealsError);
             t == s.(
               running := s.running[..k] + s.running[k + 1..],
               outgoing := s.outgoing + out,
               log := s.log + SealedAll(out) + [Freed(k, to, id, answered && (seals || sealsError))],
               counter := if !answered then s.counter else if seals then Successor(s.counter)
                          else Successor(Successor(s.counter)))
    ensures t == Finished(s, k, answered, succeeded, seals, sealsError)
  {
    hide Successor;
    assert s.outgoing + [] == s.outgoing && s.log + [] == s.log;
  }

  lemma CallIs(s: State, t: State, topic: string, seals: bool)
    requires var sealed := Sealed(Envelope(s.node, s.counter, Call(s.nextCall, topic)));
             t == s.(
               nextCall := Successor(s.nextCall), ids := s.ids + [s.nextCall], counter := Successor(s.counter),
               pending := if seals then s.pending[s.nextCall := |s.ids|] else s.pending - {s.nextCall},
               active := if seals then s.active + {s.nextCall} else s.active - {s.nextCall},
               outgoing := if seals then s.outgoing + [Outgoing(sealed.envelope, false)] else s.outgoing,
               log := if seals then s.log + [Started(|s.ids|, s.nextCall)] + [sealed]
                      else s.log + [Started(|s.ids|, s.nextCall)])
    ensures t == After(s, Calling(topic, seals))
  {
    hide Successor;
    assert s.active + {s.nextCall} - {s.nextCall} == s.active - {s.nextCall};
    assert s.pending[s.nextCall := |s.ids|] - {s.nextCall} == s.pending - {s.nextCall};
  }

  function Queued(s: State, k: nat, sealsError: bool): State
    requires k < |s.outgoing|
  {
    var o := s.outgoing[k];
    var t := s.(outgoing := s.outgoing[..k] + s.outgoing[k + 1..]);
    if |s.outbox| < OUTBOX_CAPACITY then t.(outbox := s.outbox + [o.envelope])
    else if o.again && o.envelope.body.Reply?
    then Sending(t, Reply(o.envelope.body.to, o.envelope.body.id, false), false, sealsError)
    else t
  }

  /** What one input makes of a node: an envelope or a loss counts only while it listens. */
  function After(s: State, input: Input): State {
    match input
    case Notified(envelope) => if s.listening && envelope.Some? then Handled(s, envelope.value) else s
    case ConnectionLost => if s.listening then s.(listening := false, log := s.log + [Lost] + Resets(s)) else s
    case Reconnected => if s.listening then s else s.(listening := true, log := s.log + Resets(s))
    case SinkAttached => if s.attached then s else s.(attached := true, log := s.log + [Attached])
    case Publishing(topic, seals) => Sending(s, Publication(topic), false, seals)
    case Calling(topic, seals) =>
      var t := Sending(Waiting(s), Call(s.nextCall, topic), false, seals);
      if seals then t else CallOver(t, s.nextCall)
    case CallEnded(id) => CallOver(s, id)
    case Served(k, answered, succeeded, seals, sealsError) =>
      if k < |s.running| then Finished(s, k, answered, succeeded, seals, sealsError) else s
    case Queueing(k, sealsError) => if k < |s.outgoing| then Queued(s, k, sealsError) else s
    case Batch(n) => if n <= |s.outbox| then s.(outbox := s.outbox[n..]) else s
  }

  function AfterAll(s: State, inputs: seq<Input>): State {
    if inputs == [] then s else After(AfterAll(s, inputs[..|inputs| - 1]), inputs[|inputs| - 1])
  }

  /** Whatever happens, the history keeps its promises; when no call is in progress nothing is pending. */
  method Run(id: U64, inputs: seq<Input>) returns (n: Node)
    ensures fresh(n) && n.node == id && n.Valid() && n.Now() == AfterAll(NewNode(id), inputs)
    ensures Promises(n.log, id, n.ids)
    ensures n.sends < U64_LIMIT ==> SentIncreasing(n.log)
    ensures n.active == {} ==> n.pending == map[]
    ensures RepliesAnswer(n.log) && CallsStarted(n.log, n.ids) && Counted(n.ids)
    ensures n.running == RunningAfter(n.log) && FreedRightly(n.log)
    ensures NeverLast(n.log) ==> forall e: Envelope :: IsFresh(n.seen, e) <==> Newest(n.log, e)
  {
    n := new Node(id);
    hide Kept, Owes, RepliesAnswer, CallsStarted, AllCalled, Counted, FreedRightly, RunningAfter, After, Newest, IsFresh;
    for i := 0 to |inputs|
      invariant fresh(n) && n.node == id && n.Valid() && n.Now() == AfterAll(NewNode(id), inputs[..i])
    {
      n.Take(inputs[i]);
      AfterStep(NewNode(id), inputs, i);
    }
    assert inputs[..|inputs|] == inputs;
    KeptMeans(n.log, id, n.ids, n.seen, n.pending, n.sends);
  }

  /** An envelope let in by a listening node with a sink reaches the sink, a free place or the call that waits for it. */
  lemma HeardIsActedOn(s: State, e: Envelope)
    requires s.listening && s.attached && e.origin != s.node && IsFresh(s.seen, e)
    ensures var t := After(s, Notified(Some(e)));
            && Accepted(e) in t.log && Dispatched(e) in t.log
            && (e.body.Call? && |s.running| < MAX_INBOUND_CALLS ==> t.running == s.running + [(e.origin, e.body.id)])
            && (e.body.Reply? && e.body.to == s.node && e.body.id in s.pending ==>
                  Resolved(s.pending[e.body.id], e) in t.log && e.body.id !in t.pending)
  {
    var log := Consequences(s, e);
    assert log[0] == Accepted(e) && log[1] == Dispatched(e);
    assert forall ev :: ev in log ==> ev in s.log + log;
    assert |log| == 3 ==> log[2] == Resolved(s.pending[e.body.id], e);
  }

  /** Nor is anything else that the host or the bus asks of a node passed over. */
  lemma AllIsHeeded(s: State, id: U64)
    ensures s.listening && s.attached ==> After(s, ConnectionLost).log == s.log + [Lost, Reset]
    ensures !After(s, ConnectionLost).listening && After(s, Reconnected).listening && After(s, SinkAttached).attached
    ensures !s.listening && s.attached ==> After(s, Reconnected).log == s.log + [Reset]
    ensures id !in After(s, CallEnded(id)).pending && id !in After(s, CallEnded(id)).active
    ensures s.outgoing != [] && |s.outbox| < OUTBOX_CAPACITY ==>
              After(s, Queueing(0, true)).outbox == s.outbox + [s.outgoing[0].envelope]
    ensures After(s, Batch(|s.outbox|)).outbox == []
  {
    hide Consequences, Handled, Sending, Finished, Waiting;
  }

  /** What can be sealed is sent, and a call waits for its answer if it was sent, and only then. */
  lemma AllIsSent(s: State, topic: string)
    ensures After(s, Publishing(topic, true)).log == s.log + [Sealed(Envelope(s.node, s.counter, Publication(topic)))]
    ensures After(s, Calling(topic, true)).log ==
            s.log + [Started(|s.ids|, s.nextCall), Sealed(Envelope(s.node, s.counter, Call(s.nextCall, topic)))]
    ensures s.nextCall in After(s, Calling(topic, true)).pending && s.nextCall !in After(s, Calling(topic, false)).pending
  {
    hide Consequences, Handled, Finished, Queued, Successor;
  }

  ghost function PlacedBy(running: seq<(U64, U64)>, ev: Event): multiset<(U64, U64)> {
    if ev.Dispatched? && ev.envelope.body.Call? && |running| < MAX_INBOUND_CALLS
    then multiset{(ev.envelope.origin, ev.envelope.body.id)} else multiset{}
  }

  ghost function FreedBy(ev: Event): multiset<(U64, U64)> {
    if ev.Freed? then multiset{(ev.origin, ev.id)} else multiset{}
  }

  /** The calls that found a place when they were dispatched. */
  ghost function Placed(log: seq<Event>): multiset<(U64, U64)> {
    if log == [] then multiset{}
    else
      var before, ev := log[..|log| - 1], log[|log| - 1];
      Placed(before) + PlacedBy(RunningAfter(before), ev)
  }

  ghost function FreedCalls(log: seq<Event>): multiset<(U64, U64)> {
    if log == [] then multiset{}
    else FreedCalls(log[..|log| - 1]) + FreedBy(log[|log| - 1])
  }

  lemma PlacedStep(log: seq<Event>, ev: Event)
    ensures Placed(log + [ev]) ==
            Placed(log) + PlacedBy(RunningAfter(log), ev)
    ensures FreedCalls(log + [ev]) == FreedCalls(log) + FreedBy(ev)
  {
    hide RunningAfter;
    assert (log + [ev])[..|log|] == log;
  }

  lemma FreedFront(log: seq<Event>, ev: Event)
    requires FreedRightly(log + [ev])
    ensures FreedRightly(log) && (ev.Freed? ==> MayFree(log, ev))
  {
    hide MayFree;
    var log' := log + [ev];
    SameUpTo(log, ev);
    assert log'[..|log|] == log;
    forall i | 0 <= i < |log| && log[i].Freed? ensures MayFree(log[..i], log[i]) {
      assert log'[..i] == log[..i] && log'[i].Freed?;
    }
  }

  lemma BalanceStep(running: seq<(U64, U64)>, ev: Event)
    requires ev.Freed? ==> ev.place < |running| && running[ev.place] == (ev.origin, ev.id)
    ensures multiset(RunningNext(running, ev)) + FreedBy(ev) == multiset(running) + PlacedBy(running, ev)
  {
    match ev
    case Freed(k, _, _, _) =>
      assert running == running[..k] + [running[k]] + running[k + 1..];
    case Dispatched(e) =>
      if e.body.Call? && |running| < MAX_INBOUND_CALLS {
        assert multiset(running + [(e.origin, e.body.id)]) == multiset(running) + multiset{(e.origin, e.body.id)};
      }
    case _ =>
  }

  /** The calls being run are those that found a place less those that gave it back, each as often. */
  lemma {:induction false} PlacesBalance(log: seq<Event>)
    requires FreedRightly(log)
    ensures multiset(RunningAfter(log)) + FreedCalls(log) == Placed(log)
  {
    hide RunningAfter, RunningNext, FreedCalls, Placed, FreedRightly, PlacedBy, FreedBy;
    if log == [] {
      NothingPlaced();
    } else {
      var before, ev := log[..|log| - 1], log[|log| - 1];
      assert log == before + [ev];
      FreedFront(before, ev);
      PlacesBalance(before);
      RunningStep(before, ev);
      PlacedStep(before, ev);
      BalanceStep(RunningAfter(before), ev);
      var next, gone, placed :=
        multiset(RunningNext(RunningAfter(before), ev)), FreedBy(ev), PlacedBy(RunningAfter(before), ev);
      assert next + (FreedCalls(before) + gone) == next + gone + FreedCalls(before);
      assert multiset(RunningAfter(before)) + placed + FreedCalls(before)
          == multiset(RunningAfter(before)) + FreedCalls(before) + placed;
    }
  }

  lemma NothingPlaced()
    ensures multiset(RunningAfter([])) + FreedCalls([]) == Placed([])
  {
  }

  lemma AfterStep(s: State, inputs: seq<Input>, i: nat)
    requires i < |inputs|
    ensures AfterAll(s, inputs[..i + 1]) == After(AfterAll(s, inputs[..i]), inputs[i])
  {
    assert inputs[..i + 1][..i] == inputs[..i];
  }

  lemma KeptMeans(log: seq<Event>, node: U64, ids: seq<U64>, seen: Seen, pending: map<U64, nat>, sends: nat)
    requires Kept(log, node, ids, seen, pending, sends)
    ensures Promises(log, node, ids) && (sends < U64_LIMIT ==> SentIncreasing(log))
    ensures NeverLast(log) ==> forall e: Envelope :: IsFresh(seen, e) <==> Newest(log, e)
  {
    hide Promises, AllWaiting, NeverLast, Guards, Founded, IsFresh, Newest;
    if NeverLast(log) {
      forall e: Envelope ensures IsFresh(seen, e) <==> Newest(log, e) {
        FreshIffNewest(seen, log, e);
      }
    }
  }

  /** No envelope is dispatched twice, however often the bus repeats it. */
  lemma DispatchedAtMostOnce(log: seq<Event>, node: U64, ids: seq<U64>, i: nat, j: nat)
    requires Promises(log, node, ids) && NeverLast(log) && i < j < |log| && log[i].Dispatched? && log[j].Dispatched?
    requires log[i].envelope.origin == log[j].envelope.origin
    ensures log[i].envelope.counter < log[j].envelope.counter
  {
    hide ResolvedByReply, ResolvedOnce, ResetFirst, NeverOwn;
    assert log[i - 1] == Accepted(log[i].envelope) && log[j - 1] == Accepted(log[j].envelope);
  }

  // ----- Two nodes ------------------------------------------------------------------------------------------------------------

  function AcceptedFrom(log: seq<Event>, origin: U64): seq<Envelope> {
    if log == [] then []
    else
      var ev := log[|log| - 1];
      AcceptedFrom(log[..|log| - 1], origin) + (if ev.Accepted? && ev.envelope.origin == origin then [ev.envelope] else [])
  }

  function Sent(log: seq<Event>): seq<Envelope> {
    if log == [] then []
    else
      var ev := log[|log| - 1];
      Sent(log[..|log| - 1]) + (if ev.Sealed? then [ev.envelope] else [])
  }

  ghost predicate CountersIncrease(es: seq<Envelope>) {
    forall i, j :: 0 <= i < j < |es| ==> es[i].counter < es[j].counter
  }

  lemma {:induction false} AcceptedIncrease(log: seq<Event>, origin: U64)
    requires Increasing(log)
    ensures CountersIncrease(AcceptedFrom(log, origin))
    ensures forall e :: e in AcceptedFrom(log, origin) ==> e.origin == origin && Accepted(e) in log
  {
    if log != [] {
      var n := |log| - 1;
      AcceptedIncrease(log[..n], origin);
      var before := AcceptedFrom(log[..n], origin);
      assert log[n] in log && forall e :: Accepted(e) in log[..n] ==> Accepted(e) in log;
      if log[n].Accepted? && log[n].envelope.origin == origin {
        forall i | 0 <= i < |before| ensures before[i].counter < log[n].envelope.counter {
          assert before[i] in before;
          var k :| 0 <= k < n && log[k] == Accepted(before[i]);
        }
      }
    }
  }

  lemma {:induction false} SentIncrease(log: seq<Event>)
    requires SentIncreasing(log)
    ensures CountersIncrease(Sent(log)) && forall e :: e in Sent(log) <==> Sealed(e) in log
  {
    if log != [] {
      var n := |log| - 1;
      SentIncrease(log[..n]);
      var before := Sent(log[..n]);
      assert log == log[..n] + [log[n]];
      if log[n].Sealed? {
        assert Sent(log) == before + [log[n].envelope];
        hide Sent;
        forall i | 0 <= i < |before| ensures before[i].counter < log[n].envelope.counter {
          assert before[i] in before;
          var k :| 0 <= k < n && log[k] == Sealed(before[i]);
        }
      } else {
        assert Sent(log) == before;
      }
    }
  }

  /** `at` picks the elements of `part` from `whole`, in order and each once. */
  ghost predicate Picks(at: seq<nat>, part: seq<Envelope>, whole: seq<Envelope>) {
    && |at| == |part|
    && (forall i :: 0 <= i < |at| ==> at[i] < |whole| && whole[at[i]] == part[i])
    && forall i, j :: 0 <= i < j < |at| ==> at[i] < at[j]
  }

  /** An envelope with a smaller counter was sent before. */
  lemma Earlier(whole: seq<Envelope>, k: nat, e: Envelope)
    requires CountersIncrease(whole) && k < |whole| && e in whole && e.counter < whole[k].counter
    ensures e in whole[..k]
  {
    var m :| 0 <= m < |whole| && whole[m] == e;
    if m >= k {
      assert false;
    }
    assert whole[..k][m] == e;
  }

  lemma {:induction false} InOrder(part: seq<Envelope>, whole: seq<Envelope>) returns (at: seq<nat>)
    requires CountersIncrease(part) && CountersIncrease(whole) && forall e :: e in part ==> e in whole
    ensures Picks(at, part, whole)
    decreases |part|
  {
    if part == [] {
      at := [];
    } else {
      var n := |part| - 1;
      assert part[n] in part;
      var k :| 0 <= k < |whole| && whole[k] == part[n];
      forall e | e in part[..n] ensures e in whole[..k] {
        var i :| 0 <= i < n && part[i] == e;
        assert part[i] in part;
        Earlier(whole, k, e);
      }
      var rest := InOrder(part[..n], whole[..k]);
      at := rest + [k];
      assert forall i :: 0 <= i < n ==> whole[rest[i]] == whole[..k][rest[i]] && part[..n][i] == part[i];
    }
  }

  /**
   * Across two nodes: if the bus invents nothing from `a` (it may drop, repeat, reorder and replay),
   * what `b` accepts from `a` is what `a` sealed, in that order, each at most once, with some left out.
   */
  lemma AcceptedAsSent(a: seq<Event>, b: seq<Event>, origin: U64) returns (at: seq<nat>)
    requires SentIncreasing(a) && Increasing(b)
    requires forall e :: Accepted(e) in b && e.origin == origin ==> Sealed(e) in a
    ensures Picks(at, AcceptedFrom(b, origin), Sent(a))
  {
    AcceptedIncrease(b, origin);
    SentIncrease(a);
    hide Increasing, SentIncreasing, CountersIncrease, Picks;
    forall e | e in AcceptedFrom(b, origin) ensures e in Sent(a) {
      assert Accepted(e) in b;
      assert Sealed(e) in a;
    }
    at := InOrder(AcceptedFrom(b, origin), Sent(a));
  }

  lemma SameCall(ids: seq<U64>, a: nat, b: nat)
    requires Counted(ids) && |ids| <= U64_LIMIT && a < |ids| && b < |ids| && ids[a] == ids[b]
    ensures a == b
  {
  }

  /**
   * Across two nodes, with a bus that invents nothing from either: a call that one resolves by an
   * envelope of the other was sealed here, dispatched there, and answered; and until ids wrap no
   * other call had that id.
   */
  lemma ResolvedByItsAnswer(a: seq<Event>, b: seq<Event>, node: U64, peer: U64, ids: seq<U64>, i: nat) returns (f: Envelope)
    requires Promises(a, node, ids) && CallsStarted(a, ids) && Counted(ids)
    requires RepliesAnswer(b) && DispatchedOnce(b)
    requires forall e :: Accepted(e) in a && e.origin == peer ==> Sealed(e) in b
    requires forall e :: Accepted(e) in b && e.origin == node ==> Sealed(e) in a
    requires i < |a| && a[i].Resolved? && a[i].envelope.origin == peer
    ensures Sealed(f) in a && Dispatched(f) in b && f.origin == node && f.body.Call?
    ensures a[i].call < |ids| && f.body.id == ids[a[i].call] == a[i].envelope.body.id
    ensures |ids| <= U64_LIMIT ==> forall other: nat :: other < |ids| && ids[other] == f.body.id ==> other == a[i].call
  {
    hide NeverLast, Increasing, ResetFirst, ResolvedOnce, NeverOwn, RepliesAnswer, Counted;
    var e := a[i].envelope;
    assert a[i - 1] == Dispatched(e) && a[i - 2] == Accepted(e);
    assert Accepted(e) in a && Sealed(e) in b;
    SealedAnswers(b, e);
    f :| Dispatched(f) in b && f.origin == node && f.body.Call? && f.body.id == e.body.id;
    var j :| 0 <= j < |b| && b[j] == Dispatched(f);
    assert b[j - 1] == Accepted(f);
    assert Accepted(f) in b && Sealed(f) in a;
    if |ids| <= U64_LIMIT {
      forall other: nat | other < |ids| && ids[other] == f.body.id ensures other == a[i].call {
        SameCall(ids, other, a[i].call);
      }
    }
  }
}
