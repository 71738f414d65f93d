/**
 * The migration runner (crates/orm/src/db.rs, `Db::migrate`, `Db::transaction`): pending migrations in
 * order, each in one atomic transaction with its version record, by any number of racing migrators
 * that may fail and restart at any point.
 */
module MigrationRunner {
  import opened Wrappers

  datatype Migration<St> = Migration(version: string, statements: seq<St>)

  /** A statement either changes the database or fails. */
  type Exec<!S, !St> = (S, St) -> Option<S>

  function RunAll<S, St>(exec: Exec<S, St>, s: S, sts: seq<St>): Option<S> {
    if sts == [] then Some(s)
    else
      match RunAll(exec, s, sts[..|sts| - 1])
      case None => None
      case Some(s') => exec(s', sts[|sts| - 1])
  }

  /** Each statement took one state to the next, as far as they go. */
  ghost predicate Steps<S, St>(exec: Exec<S, St>, states: seq<S>, sts: seq<St>) {
    && 0 < |states| <= |sts| + 1
    && forall i :: 0 <= i < |states| - 1 ==> exec(states[i], sts[i]) == Some(states[i + 1])
  }

  /** Statements run one after the other from the given state: all of them, or up to the first that fails. */
  lemma {:induction false} RunsThrough<S, St>(exec: Exec<S, St>, s: S, sts: seq<St>) returns (states: seq<S>)
    ensures Steps(exec, states, sts) && states[0] == s
    ensures RunAll(exec, s, sts).Some? ==> |states| == |sts| + 1 && RunAll(exec, s, sts).value == states[|sts|]
    ensures RunAll(exec, s, sts).None? ==> |states| <= |sts| && exec(states[|states| - 1], sts[|states| - 1]).None?
  {
    if sts == [] {
      states := [s];
    } else {
      var n := |sts| - 1;
      states := RunsThrough(exec, s, sts[..n]);
      assert forall i :: 0 <= i < n ==> sts[..n][i] == sts[i];
      if RunAll(exec, s, sts).Some? {
        states := states + [RunAll(exec, s, sts).value];
      }
    }
  }

  /** The database and, in the order they were recorded, the migrations behind its version rows. */
  datatype Db<S, St> = Db(state: S, history: seq<Migration<St>>)

  function Versions<St>(ms: seq<Migration<St>>): set<string> {
    set i | 0 <= i < |ms| :: ms[i].version
  }

  /** What can go wrong beside a failing statement: an error before the commit takes effect, or after it. */
  datatype Fault = NoFault | RolledBack | CommittedUnheard

  datatype Outcome<S, St> = Outcome(db: Db<S, St>, ok: bool)

  /** One transaction: the statements, then the version row, whose key must be new. */
  function Transact<S, St>(exec: Exec<S, St>, db: Db<S, St>, m: Migration<St>, fault: Fault): Outcome<S, St> {
    match RunAll(exec, db.state, m.statements)
    case None => Outcome(db, false)
    case Some(s) =>
      if m.version in Versions(db.history) || fault.RolledBack? then Outcome(db, false)
      else Outcome(Db(s, db.history + [m]), fault.NoFault?)
  }

  // ----- The state is exactly what the recorded versions say -----------------------------------------------

  function Replay<S, St>(exec: Exec<S, St>, s: S, ms: seq<Migration<St>>): Option<S> {
    if ms == [] then Some(s)
    else
      match Replay(exec, s, ms[..|ms| - 1])
      case None => None
      case Some(s') => RunAll(exec, s', ms[|ms| - 1].statements)
  }

  ghost predicate Unique<St>(ms: seq<Migration<St>>) {
    forall i, j :: 0 <= i < j < |ms| ==> ms[i].version != ms[j].version
  }

  /** Every recorded version's statements were applied once, in recorded order, and nothing else was. */
  ghost predicate Consistent<S, St>(exec: Exec<S, St>, s0: S, db: Db<S, St>) {
    Replay(exec, s0, db.history) == Some(db.state) && Unique(db.history)
  }

  lemma TransactKeeps<S, St>(exec: Exec<S, St>, s0: S, db: Db<S, St>, m: Migration<St>, fault: Fault)
    requires Consistent(exec, s0, db)
    ensures Consistent(exec, s0, Transact(exec, db, m, fault).db)
  {
    hide RunAll;
    var out := Transact(exec, db, m, fault).db;
    if out != db {
      assert out.history[..|out.history| - 1] == db.history;
      forall i | 0 <= i < |db.history| ensures db.history[i].version != m.version {
        assert db.history[i].version in Versions(db.history);
      }
    }
  }

  // ----- A migrator ------------------------------------------------------------------------------------------

  datatype Phase = Idle | Running(applied: set<string>, next: nat, count: nat) | Succeeded(count: nat) | Failed

  datatype Migrator<St> = Migrator(list: seq<Migration<St>>, phase: Phase)

  /** One step between two points where others may run: read the versions, skip, apply, or finish. */
  function Advance<S, St>(exec: Exec<S, St>, db: Db<S, St>, r: Migrator<St>, fault: Fault): (Db<S, St>, Migrator<St>) {
    match r.phase
    case Idle => (db, r.(phase := if fault.NoFault? then Running(Versions(db.history), 0, 0) else Failed))
    case Succeeded(_) => (db, r.(phase := Idle))
    case Failed => (db, r.(phase := Idle))
    case Running(applied, next, count) =>
      if next >= |r.list| then (db, r.(phase := Succeeded(count)))
      else if r.list[next].version in applied then (db, r.(phase := Running(applied, next + 1, count)))
      else
        var out := Transact(exec, db, r.list[next], fault);
        (out.db, r.(phase := if out.ok then Running(applied, next + 1, count + 1) else Failed))
  }

  datatype World<S, St> = World(db: Db<S, St>, migrators: seq<Migrator<St>>)

  datatype Turn = Turn(who: nat, fault: Fault)

  function Take<S, St>(exec: Exec<S, St>, w: World<S, St>, t: Turn): World<S, St> {
    if t.who >= |w.migrators| then w
    else
      var (db, r) := Advance(exec, w.db, w.migrators[t.who], t.fault);
      World(db, w.migrators[t.who := r])
  }

  function Race<S, St>(exec: Exec<S, St>, w: World<S, St>, turns: seq<Turn>): World<S, St> {
    if turns == [] then w else Take(exec, Race(exec, w, turns[..|turns| - 1]), turns[|turns| - 1])
  }

  /** However migrators with whatever lists interleave, fail and restart, nothing is half done or done twice. */
  lemma {:induction false} RaceConsistent<S, St>(exec: Exec<S, St>, s0: S, w: World<S, St>, turns: seq<Turn>)
    requires Consistent(exec, s0, w.db)
    ensures Consistent(exec, s0, Race(exec, w, turns).db)
  {
    hide Consistent, Transact;
    if turns != [] {
      var n := |turns| - 1;
      RaceConsistent(exec, s0, w, turns[..n]);
      var mid, t := Race(exec, w, turns[..n]), turns[n];
      if t.who < |mid.migrators| {
        var r := mid.migrators[t.who];
        if r.phase.Running? && r.phase.next < |r.list| {
          TransactKeeps(exec, s0, mid.db, r.list[r.phase.next], t.fault);
        }
      }
    }
  }

  // ----- Migrators of one list --------------------------------------------------------------------------------

  /** The migrations of the list whose version is neither among the given ones nor earlier in the list, in order. */
  function Pending<St>(list: seq<Migration<St>>, done: set<string>): seq<Migration<St>> {
    if list == [] then []
    else
      var before, m := list[..|list| - 1], list[|list| - 1];
      Pending(before, done) + (if m.version in done || m.version in Versions(before) then [] else [m])
  }

  lemma PendingStep<St>(list: seq<Migration<St>>, done: set<string>, n: nat)
    requires n < |list|
    ensures Pending(list[..n + 1], done) ==
            Pending(list[..n], done) + (if list[n].version in done || list[n].version in Versions(list[..n]) then [] else [list[n]])
  {
    assert list[..n + 1][..n] == list[..n];
  }

  lemma {:induction false} PendingVersions<St>(list: seq<Migration<St>>, done: set<string>)
    ensures Versions(Pending(list, done)) == Versions(list) - done
    ensures |Pending(list, done)| <= |list|
  {
    hide Pending, Versions;
    if list == [] {
      NonePending(list, done);
      NoVersions(list);
      NoVersions(Pending(list, done));
    } else {
      var n := |list| - 1;
      PendingVersions(list[..n], done);
      PendingStep(list, done, n);
      VersionsSnoc(list[..n], list[n]);
      assert list[..n] + [list[n]] == list && list[..n + 1] == list;
      VersionsSnoc(Pending(list[..n], done), list[n]);
      var before := Pending(list[..n], done);
      assert before + [] == before;
      var v := list[n].version;
      assert Versions(list) - done == Versions(before) + (if v in done || v in Versions(list[..n]) then {} else {v});
    }
  }

  lemma NoVersions<St>(ms: seq<Migration<St>>)
    requires ms == []
    ensures Versions(ms) == {}
  {
  }

  lemma VersionsSnoc<St>(ms: seq<Migration<St>>, m: Migration<St>)
    ensures Versions(ms + [m]) == Versions(ms) + {m.version}
  {
    var all := ms + [m];
    assert all[|ms|] == m;
    forall v | v in Versions(ms) ensures v in Versions(all) {
      var i :| 0 <= i < |ms| && ms[i].version == v;
      assert all[i] == ms[i];
    }
  }

  lemma VersionsConcat<St>(a: seq<Migration<St>>, b: seq<Migration<St>>)
    ensures Versions(a + b) == Versions(a) + Versions(b)
  {
    forall v | v in Versions(a) ensures v in Versions(a + b) {
      var i :| 0 <= i < |a| && a[i].version == v;
      assert (a + b)[i] == a[i];
    }
    forall v | v in Versions(b) ensures v in Versions(a + b) {
      var i :| 0 <= i < |b| && b[i].version == v;
      assert (a + b)[|a| + i] == b[i];
    }
  }

  lemma {:induction false} PendingPrefix<St>(list: seq<Migration<St>>, done: set<string>, n: nat, k: nat)
    requires n <= k <= |list|
    ensures Pending(list[..n], done) <= Pending(list[..k], done)
    decreases k
  {
    hide Pending, Versions;
    if k > n {
      PendingPrefix(list, done, n, k - 1);
      PendingStep(list, done, k - 1);
    }
  }

  /**
   * The history has got as far as the `upTo` first migrations of the list, and perhaps further: it is
   * what there was, then what was pending of a longer front of the list, in list order.
   */
  ghost predicate Reached<St>(h0: seq<Migration<St>>, list: seq<Migration<St>>, h: seq<Migration<St>>, n: nat) {
    n <= |list| && h == h0 + Pending(list[..n], Versions(h0))
  }

  ghost predicate SomeReached<St>(h0: seq<Migration<St>>, list: seq<Migration<St>>, h: seq<Migration<St>>) {
    exists n: nat :: Reached(h0, list, h, n)
  }

  lemma ReachedVersions<St>(h0: seq<Migration<St>>, list: seq<Migration<St>>, h: seq<Migration<St>>, n: nat)
    requires Reached(h0, list, h, n)
    ensures Versions(h) == Versions(h0) + Versions(list[..n])
  {
    VersionsConcat(h0, Pending(list[..n], Versions(h0)));
    PendingVersions(list[..n], Versions(h0));
  }

  /** A running migrator knows of versions that are recorded, and has got all before its place recorded. */
  ghost predicate Honest<St>(h: seq<Migration<St>>, r: Migrator<St>) {
    match r.phase
    case Running(applied, next, _) =>
      next <= |r.list| && applied <= Versions(h) && Versions(r.list[..next]) <= Versions(h)
    case Succeeded(_) => Versions(r.list) <= Versions(h)
    case _ => true
  }

  ghost predicate Together<S, St>(h0: seq<Migration<St>>, list: seq<Migration<St>>, w: World<S, St>) {
    && SomeReached(h0, list, w.db.history)
    && forall i :: 0 <= i < |w.migrators| ==> w.migrators[i].list == list && Honest(w.db.history, w.migrators[i])
  }

  lemma VersionsTake<St>(list: seq<Migration<St>>, n: nat)
    requires n < |list|
    ensures Versions(list[..n + 1]) == Versions(list[..n]) + {list[n].version}
  {
    assert list[..n + 1] == list[..n] + [list[n]];
    VersionsSnoc(list[..n], list[n]);
  }

  /** The next migration recorded is the first one that is not: recorded versions stay a front of the list. */
  lemma NextReached<St>(h0: seq<Migration<St>>, list: seq<Migration<St>>, h: seq<Migration<St>>, next: nat)
    requires SomeReached(h0, list, h) && next < |list|
    requires Versions(list[..next]) <= Versions(h) && list[next].version !in Versions(h)
    ensures SomeReached(h0, list, h + [list[next]])
  {
    hide Versions, Pending;
    var n: nat :| Reached(h0, list, h, n);
    ReachedVersions(h0, list, h, n);
    NotYet(list, n, next);
    OnlySkipped(h0, list, n, next);
    PendingStep(list, Versions(h0), next);
    var done := Pending(list[..n], Versions(h0));
    assert h0 + done + [list[next]] == h0 + (done + [list[next]]);
    assert Reached(h0, list, h + [list[next]], next + 1);
  }

  lemma NotYet<St>(list: seq<Migration<St>>, n: nat, next: nat)
    requires n <= |list| && next < |list| && list[next].version !in Versions(list[..n])
    ensures n <= next
  {
    forall i | 0 <= i < n ensures list[i].version in Versions(list[..n]) {
      assert list[..n][i] == list[i];
    }
  }

  lemma FrontGrows<St>(list: seq<Migration<St>>, n: nat, k: nat)
    requires n <= k <= |list|
    ensures Versions(list[..n]) <= Versions(list[..k])
  {
    assert list[..k] == list[..n] + list[n..k];
    VersionsConcat(list[..n], list[n..k]);
  }

  /** Between the front and the next one to record, everything was there from the start or is repeated. */
  lemma {:induction false} OnlySkipped<St>(h0: seq<Migration<St>>, list: seq<Migration<St>>, n: nat, next: nat)
    requires n <= next <= |list|
    requires Versions(list[..next]) <= Versions(h0) + Versions(list[..n])
    ensures Pending(list[..next], Versions(h0)) == Pending(list[..n], Versions(h0))
    decreases next
  {
    hide Pending, Versions;
    if next > n {
      VersionsTake(list, next - 1);
      FrontGrows(list, n, next - 1);
      OnlySkipped(h0, list, n, next - 1);
      PendingStep(list, Versions(h0), next - 1);
    }
  }

  lemma {:induction false} NonePending<St>(ms: seq<Migration<St>>, done: set<string>)
    requires forall i :: 0 <= i < |ms| ==> ms[i].version in done
    ensures Pending(ms, done) == []
  {
    if ms != [] {
      NonePending(ms[..|ms| - 1], done);
    }
  }

  /** A step of one migrator keeps what the others know. */
  lemma HonestGrows<St>(h: seq<Migration<St>>, m: Migration<St>, r: Migrator<St>)
    requires Honest(h, r)
    ensures Honest(h + [m], r)
  {
    VersionsSnoc(h, m);
  }

  lemma AdvanceTogether<S, St>(exec: Exec<S, St>, h0: seq<Migration<St>>, db: Db<S, St>, r: Migrator<St>, fault: Fault)
    requires SomeReached(h0, r.list, db.history) && Honest(db.history, r)
    ensures var (db', r') := Advance(exec, db, r, fault);
            && SomeReached(h0, r.list, db'.history) && r'.list == r.list && Honest(db'.history, r')
            && (db'.history == db.history || (r.phase.Running? && r.phase.next < |r.list| &&
                                              db'.history == db.history + [r.list[r.phase.next]]))
  {
    hide Versions, SomeReached, RunAll;
    EmptyFront(r.list);
    if r.phase.Running? && r.phase.next < |r.list| {
      var next := r.phase.next;
      VersionsTake(r.list, next);
      var m := r.list[next];
      if m.version !in r.phase.applied && m.version !in Versions(db.history) {
        NextReached(h0, r.list, db.history, next);
        VersionsSnoc(db.history, m);
      }
    } else if r.phase.Running? {
      assert r.list[..r.phase.next] == r.list;
    }
  }

  lemma EmptyFront<St>(list: seq<Migration<St>>)
    ensures Versions(list[..0]) == {}
  {
  }

  lemma {:induction false} RaceTogether<S, St>(exec: Exec<S, St>, h0: seq<Migration<St>>, list: seq<Migration<St>>, w: World<S, St>,
                                               turns: seq<Turn>)
    requires Together(h0, list, w)
    ensures Together(h0, list, Race(exec, w, turns))
  {
    hide SomeReached, Honest, Advance;
    if turns != [] {
      var n := |turns| - 1;
      RaceTogether(exec, h0, list, w, turns[..n]);
      var mid, t := Race(exec, w, turns[..n]), turns[n];
      if t.who < |mid.migrators| {
        var r := mid.migrators[t.who];
        AdvanceTogether(exec, h0, mid.db, r, t.fault);
        var (db', r') := Advance(exec, mid.db, r, t.fault);
        forall i | 0 <= i < |mid.migrators| && i != t.who ensures Honest(db'.history, mid.migrators[i]) {
          if db'.history != mid.db.history {
            HonestGrows(mid.db.history, r.list[r.phase.next], mid.migrators[i]);
          }
        }
      }
    }
  }

  /** Fresh migrators of one list over a database. */
  ghost predicate Start<S, St>(list: seq<Migration<St>>, w: World<S, St>) {
    forall i :: 0 <= i < |w.migrators| ==> w.migrators[i] == Migrator(list, Idle)
  }

  lemma StartTogether<S, St>(list: seq<Migration<St>>, w: World<S, St>)
    requires Start(list, w)
    ensures Together(w.db.history, list, w)
  {
    assert Reached(w.db.history, list, w.db.history, 0) by {
      assert list[..0] == [] && Pending(list[..0], Versions(w.db.history)) == [];
    }
  }

  /**
   * Racing on one list, the recorded versions are always what was there plus a front of what was
   * pending, in list order; and once any migrator has returned success, all of it.
   */
  lemma RecordedInOrder<S, St>(exec: Exec<S, St>, list: seq<Migration<St>>, w: World<S, St>, turns: seq<Turn>)
    requires Start(list, w)
    ensures var end := Race(exec, w, turns);
            && SomeReached(w.db.history, list, end.db.history)
            && ((exists i :: 0 <= i < |end.migrators| && end.migrators[i].phase.Succeeded?) ==>
                end.db.history == w.db.history + Pending(list, Versions(w.db.history)))
  {
    hide Race, Start, SomeReached, Pending, Versions;
    StartTogether(list, w);
    RaceTogether(exec, w.db.history, list, w, turns);
    var end := Race(exec, w, turns);
    if i :| 0 <= i < |end.migrators| && end.migrators[i].phase.Succeeded? {
      AllReached(w.db.history, list, end.db.history);
    }
  }

  lemma AllReached<St>(h0: seq<Migration<St>>, list: seq<Migration<St>>, h: seq<Migration<St>>)
    requires SomeReached(h0, list, h) && Versions(list) <= Versions(h)
    ensures h == h0 + Pending(list, Versions(h0))
  {
    var n: nat :| Reached(h0, list, h, n);
    ReachedVersions(h0, list, h, n);
    assert list[..|list|] == list;
    OnlySkipped(h0, list, n, |list|);
  }

  /**
   * Any two runs from one database, however interrupted, restarted or raced, leave the same database
   * once a migrator has succeeded in each: in particular a rerun after failures ends where an
   * uninterrupted run does.
   */
  lemma SameEnd<S, St>(exec: Exec<S, St>, s0: S, list: seq<Migration<St>>, w: World<S, St>, v: World<S, St>,
                       turns: seq<Turn>, others: seq<Turn>)
    requires Start(list, w) && Start(list, v) && v.db == w.db && Consistent(exec, s0, w.db)
    requires exists i :: 0 <= i < |Race(exec, w, turns).migrators| && Race(exec, w, turns).migrators[i].phase.Succeeded?
    requires exists i :: 0 <= i < |Race(exec, v, others).migrators| && Race(exec, v, others).migrators[i].phase.Succeeded?
    ensures Race(exec, w, turns).db == Race(exec, v, others).db
  {
    hide Race, Start, Pending, Versions, SomeReached;
    RecordedInOrder(exec, list, w, turns);
    RecordedInOrder(exec, list, v, others);
    RaceConsistent(exec, s0, w, turns);
    RaceConsistent(exec, s0, v, others);
  }

  // ----- One migrator's loop -----------------------------------------------------------------------------------------

  lemma InVersions<St>(ms: seq<Migration<St>>, i: nat)
    requires i < |ms|
    ensures ms[i].version in Versions(ms)
  {
  }

  lemma {:induction false} RestPending<St>(list: seq<Migration<St>>, done: set<string>, n: nat, k: nat)
    requires n <= k <= |list|
    ensures Pending(list[..k], done) ==
            Pending(list[..n], done) + Pending(list[..k], done + Versions(list[..n]))
    decreases k
  {
    hide Pending, Versions;
    var more := done + Versions(list[..n]);
    if k == n {
      forall i | 0 <= i < n ensures list[..n][i].version in more {
        InVersions(list[..n], i);
      }
      NonePending(list[..n], more);
    } else {
      RestPending(list, done, n, k - 1);
      FrontGrows(list, n, k - 1);
      PendingStep(list, done, k - 1);
      PendingStep(list, more, k - 1);
    }
  }

  /** What is pending after an interruption is exactly what is missing. */
  lemma RerunEnds<St>(h0: seq<Migration<St>>, list: seq<Migration<St>>, h: seq<Migration<St>>)
    requires SomeReached(h0, list, h)
    ensures h + Pending(list, Versions(h)) == h0 + Pending(list, Versions(h0))
  {
    hide Pending, Versions;
    var n: nat :| Reached(h0, list, h, n);
    ReachedVersions(h0, list, h, n);
    RestPending(list, Versions(h0), n, |list|);
    assert list[..|list|] == list;
    var front, rest := Pending(list[..n], Versions(h0)), Pending(list, Versions(h));
    assert h0 + front + rest == h0 + (front + rest);
  }

  // A version that the list repeats.

  /** The version was not there before, but is listed earlier: its row exists when its turn comes. */
  ghost predicate RepeatAt<St>(list: seq<Migration<St>>, done: set<string>, j: nat) {
    j < |list| && list[j].version !in done && list[j].version in Versions(list[..j])
  }

  ghost predicate Repeats<St>(list: seq<Migration<St>>, done: set<string>) {
    exists j: nat :: RepeatAt(list, done, j)
  }

  /** A run that fails on a repeated version has recorded all up to it, so a rerun skips past it. */
  lemma RerunPasses<St>(h0: seq<Migration<St>>, list: seq<Migration<St>>, h: seq<Migration<St>>, j: nat, k: nat)
    requires Reached(h0, list, h, j) && RepeatAt(list, Versions(h0), j) && k <= j
    ensures list[k].version in Versions(h) && !RepeatAt(list, Versions(h), k)
  {
    hide Pending;
    ReachedVersions(h0, list, h, j);
    if k < j {
      assert list[..j][k] == list[k];
    }
  }

  lemma {:induction false} ReplayPrefix<S, St>(exec: Exec<S, St>, s0: S, ms: seq<Migration<St>>, n: nat)
    requires n <= |ms| && Replay(exec, s0, ms).Some?
    ensures Replay(exec, s0, ms[..n]).Some?
    decreases |ms| - n
  {
    if n < |ms| {
      ReplayPrefix(exec, s0, ms, n + 1);
      assert ms[..n + 1][..n] == ms[..n];
    } else {
      assert ms[..n] == ms;
    }
  }

  /** The next pending migration's statements succeed if the whole list's do. */
  lemma NextSucceeds<S, St>(exec: Exec<S, St>, s0: S, db: Db<S, St>, m: Migration<St>, rest: seq<Migration<St>>)
    requires Replay(exec, s0, db.history) == Some(db.state) && Replay(exec, s0, db.history + [m] + rest).Some?
    ensures RunAll(exec, db.state, m.statements).Some?
  {
    hide RunAll;
    var all := db.history + [m] + rest;
    ReplayPrefix(exec, s0, all, |db.history| + 1);
    assert all[..|db.history| + 1] == db.history + [m];
    assert (db.history + [m])[..|db.history|] == db.history;
  }

  class Database<S, St> {
    const exec: Exec<S, St>
    var db: Db<S, St>

    constructor (exec: Exec<S, St>, db: Db<S, St>)
      ensures this.exec == exec && this.db == db
    {
      this.exec, this.db := exec, db;
    }

    /** All or nothing: the statements and the version row, or the database as it was. */
    method Transaction(m: Migration<St>, fault: Fault) returns (ok: bool)
      modifies this
      ensures db == Transact(exec, old(db), m, fault).db && ok == Transact(exec, old(db), m, fault).ok
    {
      var s := db.state;
      assert m.statements[..0] == [];
      for i := 0 to |m.statements|
        invariant db == old(db) && RunAll(exec, db.state, m.statements[..i]) == Some(s)
      {
        assert m.statements[..i + 1][..i] == m.statements[..i];
        match exec(s, m.statements[i])
        case None =>
          Broken(exec, db.state, m.statements, i + 1);
          return false;
        case Some(next) => s := next;
      }
      assert m.statements[..|m.statements|] == m.statements;
      if m.version in Versions(db.history) || fault.RolledBack? {
        return false;
      }
      db := Db(s, db.history + [m]);
      ok := fault.NoFault?;
    }

    /**
     * Alone on the database, a migrator records exactly what is pending, in order, and counts it; an
     * error leaves a front of that. Where the statements can succeed and nothing else fails, it
     * succeeds unless the list repeats a version that was not there before, and then stops at the repeat.
     */
    method Migrate(list: seq<Migration<St>>, faults: nat -> Fault, ghost s0: S) returns (r: Option<nat>)
      requires Consistent(exec, s0, db)
      modifies this
      ensures Consistent(exec, s0, db) && SomeReached(old(db).history, list, db.history)
      ensures var h0 := old(db).history;
              && (r.Some? ==> db.history == h0 + Pending(list, Versions(h0)) && r.value == |Pending(list, Versions(h0))|)
              && (r.Some? ==> !Repeats(list, Versions(h0)))
              && ((forall i :: faults(i).NoFault?) && Replay(exec, s0, h0 + Pending(list, Versions(h0))).Some? && r.None? ==>
                    exists j :: Reached(h0, list, db.history, j) && RepeatAt(list, Versions(h0), j))
    {
      hide Versions, Pending, Consistent, Replay, RunAll, RepeatAt;
      ghost var h0 := db.history;
      ghost var all := h0 + Pending(list, Versions(h0));
      var applied := Versions(db.history);
      var count: nat := 0;
      NothingPending(h0, list);
      for i := 0 to |list|
        invariant Consistent(exec, s0, db) && Reached(h0, list, db.history, i)
        invariant count == |Pending(list[..i], applied)|
        invariant forall j: nat :: j < i ==> !RepeatAt(list, applied, j)
      {
        PendingStep(list, applied, i);
        RepeatIs(list, applied, i);
        if list[i].version in applied { continue; }
        ghost var before := db;
        TransactKeeps(exec, s0, db, list[i], faults(i));
        RecordedIff(h0, list, db.history, i);
        var ok := Transaction(list[i], faults(i));
        StillReached(exec, h0, list, before, i, faults(i));
        if !ok {
          if !RepeatAt(list, applied, i) && Replay(exec, s0, all).Some? {
            NextPending(exec, s0, h0, list, before, i);
          }
          return None;
        }
        count := count + 1;
      }
      assert list[..|list|] == list;
      NoRepeats(list, applied);
      r := Some(count);
    }
  }

  lemma RepeatIs<St>(list: seq<Migration<St>>, done: set<string>, i: nat)
    requires i < |list|
    ensures RepeatAt(list, done, i) <==> list[i].version !in done && list[i].version in Versions(list[..i])
  {
  }

  lemma NoRepeats<St>(list: seq<Migration<St>>, done: set<string>)
    requires forall j: nat :: j < |list| ==> !RepeatAt(list, done, j)
    ensures !Repeats(list, done)
  {
  }

  lemma {:induction false} Broken<S, St>(exec: Exec<S, St>, s: S, sts: seq<St>, n: nat)
    requires n <= |sts| && RunAll(exec, s, sts[..n]).None?
    ensures RunAll(exec, s, sts).None?
    decreases |sts| - n
  {
    if n == |sts| {
      assert sts[..n] == sts;
    } else {
      assert sts[..n + 1][..n] == sts[..n];
      Broken(exec, s, sts, n + 1);
    }
  }

  lemma NothingPending<St>(h0: seq<Migration<St>>, list: seq<Migration<St>>)
    ensures Reached(h0, list, h0, 0) && Pending(list[..0], Versions(h0)) == []
  {
    assert list[..0] == [];
  }

  lemma RecordedIff<St>(h0: seq<Migration<St>>, list: seq<Migration<St>>, h: seq<Migration<St>>, i: nat)
    requires Reached(h0, list, h, i) && i < |list| && list[i].version !in Versions(h0)
    ensures list[i].version in Versions(h) <==> RepeatAt(list, Versions(h0), i)
  {
    hide Versions, Pending;
    ReachedVersions(h0, list, h, i);
  }

  lemma StillReached<S, St>(exec: Exec<S, St>, h0: seq<Migration<St>>, list: seq<Migration<St>>, db: Db<S, St>, i: nat, fault: Fault)
    requires i < |list| && Reached(h0, list, db.history, i) && list[i].version !in Versions(h0)
    ensures var out := Transact(exec, db, list[i], fault);
            && (out.ok ==> Reached(h0, list, out.db.history, i + 1) && !RepeatAt(list, Versions(h0), i))
            && SomeReached(h0, list, out.db.history)
            && (out.db == db ==> Reached(h0, list, out.db.history, i))
  {
    hide Versions, Pending, RunAll;
    PendingStep(list, Versions(h0), i);
    RecordedIff(h0, list, db.history, i);
    var done := Pending(list[..i], Versions(h0));
    assert h0 + done + [list[i]] == h0 + (done + [list[i]]);
    var out := Transact(exec, db, list[i], fault);
    if out.db.history == db.history {
      assert Reached(h0, list, out.db.history, i);
    } else {
      assert Reached(h0, list, out.db.history, i + 1);
    }
  }

  /** With everything replayable and the version not recorded, a faultless transaction goes through. */
  lemma NextPending<S, St>(exec: Exec<S, St>, s0: S, h0: seq<Migration<St>>, list: seq<Migration<St>>, db: Db<S, St>, i: nat)
    requires i < |list| && Reached(h0, list, db.history, i) && list[i].version !in Versions(h0)
    requires Consistent(exec, s0, db) && list[i].version !in Versions(db.history)
    requires Replay(exec, s0, h0 + Pending(list, Versions(h0))).Some?
    ensures Transact(exec, db, list[i], NoFault).ok
  {
    hide Versions, Pending, RunAll, Replay;
    PendingStep(list, Versions(h0), i);
    RecordedIff(h0, list, db.history, i);
    PendingPrefix(list, Versions(h0), i + 1, |list|);
    assert list[..|list|] == list;
    var done, all := Pending(list[..i], Versions(h0)), Pending(list, Versions(h0));
    var rest := all[|done| + 1..];
    assert all == done + [list[i]] + rest;
    assert h0 + (done + [list[i]] + rest) == h0 + done + [list[i]] + rest;
    NextSucceeds(exec, s0, db, list[i], rest);
  }

  lemma TwicePending<St>(m: Migration<St>, done: set<string>)
    ensures m.version !in done ==> Pending([m, m][..1], done) == [m] == Pending([m, m], done) && RepeatAt([m, m], done, 1)
    ensures m.version in done ==> Pending([m, m], done) == []
    ensures forall j: nat :: RepeatAt([m, m], done, j) ==> j == 1 && m.version !in done
  {
    assert [m, m][..1] == [m] && [m][..0] == [];
    assert [m, m][..1][0] == m;
    if m.version in done {
      NonePending([m, m], done);
    }
    forall j: nat | RepeatAt([m, m], done, j) ensures j == 1 && m.version !in done {
      assert [m, m][..0] == [];
    }
  }

  lemma ReplaySnoc<S, St>(exec: Exec<S, St>, s0: S, ms: seq<Migration<St>>, m: Migration<St>)
    requires Replay(exec, s0, ms).Some?
    ensures Replay(exec, s0, ms + [m]) == RunAll(exec, Replay(exec, s0, ms).value, m.statements)
  {
    assert (ms + [m])[..|ms|] == ms;
  }

  /** A migration listed twice: the first run records it and fails on the repeat, the second has nothing to do. */
  method MigrateTwiceListed<S, St>(d: Database<S, St>, m: Migration<St>, ghost s0: S)
    returns (first: Option<nat>, second: Option<nat>)
    requires Consistent(d.exec, s0, d.db) && m.version !in Versions(d.db.history)
    requires RunAll(d.exec, d.db.state, m.statements).Some?
    modifies d
    ensures first.None? && second == Some(0) && d.db.history == old(d.db).history + [m]
  {
    hide Versions, Pending, RunAll, RepeatAt, Replay;
    ghost var h0 := d.db.history;
    TwicePending(m, Versions(h0));
    ReplaySnoc(d.exec, s0, h0, m);
    first := d.Migrate([m, m], _ => NoFault, s0);
    assert d.db.history == h0 + [m];
    VersionsSnoc(h0, m);
    TwicePending(m, Versions(d.db.history));
    ghost var h1 := d.db.history;
    assert h1 + Pending([m, m], Versions(h1)) == h1;
    second := d.Migrate([m, m], _ => NoFault, s0);
  }
}
