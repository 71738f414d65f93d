/**
 * Upserts that name a column more than once (crates/orm/src/insert.rs, `Upsert::set`, `set_coalesce`,
 * `set_add` only ever push): exactly when MySQL's left-to-right reading and a simultaneous one agree.
 */
module UpsertOrder {
  import opened Wrappers
  import opened SqlText
  import opened SqlGrammar
  import opened UpsertSql

  // ----- One column at a time ----------------------------------------------------------------------------

  /** A column's next value, from its current and its incoming one. */
  function Refresh(sem: Semantics, mode: Mode, current: Datum, incoming: Datum): Datum
    requires !mode.Expression?
  {
    match mode
    case Overwrite => incoming
    case CoalesceExisting => if incoming.Null? then current else incoming
    case AddExcluded => Sum3(sem, Plus, current, incoming)
  }

  /** The value of a column after the first `n` updates, each reading the one before. */
  function Chained(sem: Semantics, us: seq<Update>, n: nat, column: string, stored: Datum, incoming: Datum): Datum
    requires Plain(us) && n <= |us|
  {
    if n == 0 then stored
    else
      var before := Chained(sem, us, n - 1, column, stored, incoming);
      assert us[n - 1] in us;
      if us[n - 1].column == column then Refresh(sem, us[n - 1].mode, before, incoming) else before
  }

  /** The same, each update reading the stored value. */
  function Independent(sem: Semantics, us: seq<Update>, n: nat, column: string, stored: Datum, incoming: Datum): Datum
    requires Plain(us) && n <= |us|
  {
    if n == 0 then stored
    else
      assert us[n - 1] in us;
      if us[n - 1].column == column then Refresh(sem, us[n - 1].mode, stored, incoming)
      else Independent(sem, us, n - 1, column, stored, incoming)
  }

  predicate Mentioned(us: seq<Update>, n: nat, column: string)
    requires n <= |us|
  {
    exists j :: 0 <= j < n && us[j].column == column
  }

  lemma OneMoreMention(us: seq<Update>, n: nat, column: string)
    requires n < |us|
    ensures Mentioned(us, n + 1, column) <==> Mentioned(us, n, column) || us[n].column == column
  {
  }

  /** Both readings of the assignments, seen from one column. */
  lemma {:induction false} ColumnRuns(d: Dialect, table: string, us: seq<Update>, n: nat, row: Row, incoming: Row,
                                      sem: Semantics, binds: seq<Datum>, c: string)
    requires Plain(us) && n <= |us|
    ensures Plain(us[..n])
    ensures var xs, r, i := Assignments(d, table, us[..n]), Get(row, c), Get(incoming, c);
            var m, s := LeftToRight(row, incoming, sem, binds, xs), Simultaneous(row, incoming, sem, binds, xs);
            && (c in m <==> c in row || Mentioned(us, n, c)) && (c in s <==> c in row || Mentioned(us, n, c))
            && Get(m, c) == Chained(sem, us, n, c, r, i) && Get(s, c) == Independent(sem, us, n, c, r, i)
  {
    hide Eval, ValueExpr, Mentioned, Assignments, LeftToRight, Simultaneous;
    if n == 0 {
      NoAssignments(d, table, us);
      NothingAssigned(row, incoming, sem, binds);
      NoMention(us, c);
    } else {
      ColumnRuns(d, table, us, n - 1, row, incoming, sem, binds, c);
      AssignmentsStep(d, table, us, n - 1);
      OneMoreMention(us, n - 1, c);
      var u, before := us[n - 1], Assignments(d, table, us[..n - 1]);
      assert u in us;
      OneAssignment(row, incoming, sem, binds, before, Assignment(u.column, ValueExpr(d, table, u)));
      ValueMeans(d, table, u, row, incoming, sem, binds);
      ValueMeans(d, table, u, LeftToRight(row, incoming, sem, binds, before), incoming, sem, binds);
    }
  }

  lemma NothingAssigned(row: Row, incoming: Row, sem: Semantics, binds: seq<Datum>)
    ensures LeftToRight(row, incoming, sem, binds, []) == row == Simultaneous(row, incoming, sem, binds, [])
  {
  }

  lemma OneAssignment(row: Row, incoming: Row, sem: Semantics, binds: seq<Datum>, xs: seq<Assignment>, x: Assignment)
    ensures var m := LeftToRight(row, incoming, sem, binds, xs);
            LeftToRight(row, incoming, sem, binds, xs + [x]) == m[x.column := Eval(x.value, RowEnv(m, incoming, sem), binds)]
    ensures Simultaneous(row, incoming, sem, binds, xs + [x]) ==
            Simultaneous(row, incoming, sem, binds, xs)[x.column := Eval(x.value, RowEnv(row, incoming, sem), binds)]
  {
    hide Eval;
    assert (xs + [x])[..|xs|] == xs;
  }

  lemma NoAssignments(d: Dialect, table: string, us: seq<Update>)
    ensures Assignments(d, table, us[..0]) == []
  {
  }

  lemma NoMention(us: seq<Update>, column: string)
    ensures !Mentioned(us, 0, column)
  {
  }

  /** The two clauses leave the same row. */
  ghost predicate Agree(mysql: Dialect, standard: Dialect, table: string, us: seq<Update>, row: Row, incoming: Row,
                        sem: Semantics, binds: seq<Datum>)
    requires Plain(us)
  {
    LeftToRight(row, incoming, sem, binds, Assignments(mysql, table, us)) ==
    Simultaneous(row, incoming, sem, binds, Assignments(standard, table, us))
  }

  lemma AgreeIff(mysql: Dialect, standard: Dialect, table: string, us: seq<Update>, row: Row, incoming: Row,
                 sem: Semantics, binds: seq<Datum>)
    requires Plain(us)
    ensures Agree(mysql, standard, table, us, row, incoming, sem, binds) <==>
            forall c :: Chained(sem, us, |us|, c, Get(row, c), Get(incoming, c)) ==
                        Independent(sem, us, |us|, c, Get(row, c), Get(incoming, c))
  {
    hide LeftToRight, Simultaneous, Assignments, Chained, Independent, Mentioned;
    assert us[..|us|] == us;
    var m := LeftToRight(row, incoming, sem, binds, Assignments(mysql, table, us));
    var s := Simultaneous(row, incoming, sem, binds, Assignments(standard, table, us));
    forall c
      ensures c in m <==> c in s
      ensures Get(m, c) == Chained(sem, us, |us|, c, Get(row, c), Get(incoming, c))
      ensures Get(s, c) == Independent(sem, us, |us|, c, Get(row, c), Get(incoming, c))
    {
      ColumnRuns(mysql, table, us, |us|, row, incoming, sem, binds, c);
      ColumnRuns(standard, table, us, |us|, row, incoming, sem, binds, c);
    }
    if forall c :: Get(m, c) == Get(s, c) {
      forall c | c in m ensures m[c] == s[c] {
        assert Get(m, c) == Get(s, c);
      }
    }
  }

  // ----- The exact condition ---------------------------------------------------------------------------------

  predicate LastMention(us: seq<Update>, k: nat)
    requires k < |us|
  {
    forall j :: k < j < |us| ==> us[j].column != us[k].column
  }

  /** Each column's last update reads no earlier one: it overwrites, comes alone, or coalesces after coalesces. */
  predicate OrderFree(us: seq<Update>) {
    forall k :: 0 <= k < |us| && LastMention(us, k) ==>
      || us[k].mode.Overwrite?
      || !Mentioned(us, k, us[k].column)
      || (us[k].mode.CoalesceExisting? && OnlyCoalesces(us, k, us[k].column))
  }

  predicate OnlyCoalesces(us: seq<Update>, n: nat, column: string)
    requires n <= |us|
  {
    forall j :: 0 <= j < n && us[j].column == column ==> us[j].mode.CoalesceExisting?
  }

  lemma {:induction false} AfterLast(sem: Semantics, us: seq<Update>, k: nat, n: nat, stored: Datum, incoming: Datum)
    requires Plain(us) && k < n <= |us| && LastMention(us, k)
    ensures us[k] in us
    ensures var c := us[k].column;
            && Chained(sem, us, n, c, stored, incoming) ==
               Refresh(sem, us[k].mode, Chained(sem, us, k, c, stored, incoming), incoming)
            && Independent(sem, us, n, c, stored, incoming) == Refresh(sem, us[k].mode, stored, incoming)
  {
    hide Refresh;
    if n > k + 1 {
      AfterLast(sem, us, k, n - 1, stored, incoming);
    }
  }

  lemma {:induction false} Unmentioned(sem: Semantics, us: seq<Update>, n: nat, c: string, stored: Datum, incoming: Datum)
    requires Plain(us) && n <= |us| && !Mentioned(us, n, c)
    ensures Chained(sem, us, n, c, stored, incoming) == stored == Independent(sem, us, n, c, stored, incoming)
  {
    hide Refresh;
    if n > 0 {
      OneMoreMention(us, n - 1, c);
      Unmentioned(sem, us, n - 1, c, stored, incoming);
    }
  }

  lemma {:induction false} LastExists(us: seq<Update>, n: nat, c: string) returns (k: nat)
    requires n <= |us| && Mentioned(us, n, c) && forall j :: n <= j < |us| ==> us[j].column != c
    ensures k < n && us[k].column == c && LastMention(us, k)
  {
    if us[n - 1].column == c {
      k := n - 1;
    } else {
      OneMoreMention(us, n - 1, c);
      k := LastExists(us, n - 1, c);
    }
  }

  /** Coalesces of a NULL keep the stored value. */
  lemma {:induction false} CoalescesKeep(sem: Semantics, us: seq<Update>, n: nat, c: string, stored: Datum)
    requires Plain(us) && n <= |us| && OnlyCoalesces(us, n, c)
    ensures Chained(sem, us, n, c, stored, Null) == stored
  {
    if n > 0 {
      CoalescesKeep(sem, us, n - 1, c, stored);
    }
  }

  lemma OrderFreeAgrees(sem: Semantics, us: seq<Update>, c: string, stored: Datum, incoming: Datum)
    requires Plain(us) && OrderFree(us)
    ensures Chained(sem, us, |us|, c, stored, incoming) == Independent(sem, us, |us|, c, stored, incoming)
  {
    hide Chained, Independent, Mentioned, OnlyCoalesces, LastMention;
    if Mentioned(us, |us|, c) {
      var k := LastExists(us, |us|, c);
      AfterLast(sem, us, k, |us|, stored, incoming);
      if !Mentioned(us, k, c) {
        Unmentioned(sem, us, k, c, stored, incoming);
      } else if us[k].mode.CoalesceExisting? && incoming.Null? {
        CoalescesKeep(sem, us, k, c, stored);
      }
    } else {
      Unmentioned(sem, us, |us|, c, stored, incoming);
    }
  }

  /** Numbers add up. */
  ghost predicate Arithmetic(sem: Semantics) {
    forall a, b :: sem.sum(Plus, Int(a), Int(b)) == Int(a + b)
  }

  lemma Adds(sem: Semantics, a: int, b: int)
    requires Arithmetic(sem)
    ensures Sum3(sem, Plus, Int(a), Int(b)) == Int(a + b)
  {
  }

  /** After any mention, 1 with 2 coming in is at least 2. */
  lemma {:induction false} Grows(sem: Semantics, us: seq<Update>, n: nat, c: string)
    requires Plain(us) && n <= |us| && Arithmetic(sem)
    ensures var v := Chained(sem, us, n, c, Int(1), Int(2));
            v.Int? && (if Mentioned(us, n, c) then v.i >= 2 else v.i == 1)
  {
    if n > 0 {
      Grows(sem, us, n - 1, c);
      OneMoreMention(us, n - 1, c);
      hide Arithmetic, Sum3;
      Adds(sem, Chained(sem, us, n - 1, c, Int(1), Int(2)).i, 2);
    } else {
      NoMention(us, c);
    }
  }

  /** After an overwrite or an addition of NULL, nothing but NULL is left. */
  lemma {:induction false} NullSpreads(sem: Semantics, us: seq<Update>, n: nat, c: string)
    requires Plain(us) && n <= |us|
    ensures Chained(sem, us, n, c, Int(1), Null) == if OnlyCoalesces(us, n, c) then Int(1) else Null
  {
    if n > 0 {
      NullSpreads(sem, us, n - 1, c);
      assert OnlyCoalesces(us, n, c) <==>
             OnlyCoalesces(us, n - 1, c) && (us[n - 1].column == c ==> us[n - 1].mode.CoalesceExisting?);
    }
  }

  /** A value on which the two readings of a column differ. */
  lemma Differs(sem: Semantics, us: seq<Update>, k: nat) returns (incoming: Datum)
    requires Plain(us) && k < |us| && LastMention(us, k) && Arithmetic(sem)
    requires !us[k].mode.Overwrite? && Mentioned(us, k, us[k].column)
    requires us[k].mode.CoalesceExisting? ==> !OnlyCoalesces(us, k, us[k].column)
    ensures Chained(sem, us, |us|, us[k].column, Int(1), incoming) !=
            Independent(sem, us, |us|, us[k].column, Int(1), incoming)
  {
    hide Chained, Independent, Mentioned, OnlyCoalesces, LastMention;
    assert us[k] in us;
    incoming := if us[k].mode.AddExcluded? then Int(2) else Null;
    AfterLast(sem, us, k, |us|, Int(1), incoming);
    Grows(sem, us, k, us[k].column);
    NullSpreads(sem, us, k, us[k].column);
    Adds(sem, 1, 2);
    Adds(sem, Chained(sem, us, k, us[k].column, Int(1), Int(2)).i, 2);
  }

  /** Whatever is stored and comes in, the one list read in order leaves what the other does read at once. */
  ghost predicate SameRow(xs: seq<Assignment>, ys: seq<Assignment>, sem: Semantics, binds: seq<Datum>) {
    forall row, incoming :: LeftToRight(row, incoming, sem, binds, xs) == Simultaneous(row, incoming, sem, binds, ys)
  }

  /**
   * The two readings leave the same row, whatever is stored and whatever comes in, exactly when each
   * column's last update overwrites, is its only one, or coalesces after nothing but coalesces.
   */
  lemma AgreeAlwaysIff(mysql: Dialect, standard: Dialect, table: string, us: seq<Update>, sem: Semantics, binds: seq<Datum>)
    requires Plain(us) && Arithmetic(sem)
    ensures SameRow(Assignments(mysql, table, us), Assignments(standard, table, us), sem, binds) <==> OrderFree(us)
  {
    hide LeftToRight, Simultaneous, Assignments, Chained, Independent, Mentioned, OnlyCoalesces, LastMention, Arithmetic;
    var xs, ys := Assignments(mysql, table, us), Assignments(standard, table, us);
    if OrderFree(us) {
      forall row, incoming ensures LeftToRight(row, incoming, sem, binds, xs) == Simultaneous(row, incoming, sem, binds, ys) {
        forall c ensures Chained(sem, us, |us|, c, Get(row, c), Get(incoming, c)) ==
                         Independent(sem, us, |us|, c, Get(row, c), Get(incoming, c))
        {
          OrderFreeAgrees(sem, us, c, Get(row, c), Get(incoming, c));
        }
        AgreeIff(mysql, standard, table, us, row, incoming, sem, binds);
      }
    } else {
      var k :| 0 <= k < |us| && LastMention(us, k) && !us[k].mode.Overwrite? && Mentioned(us, k, us[k].column) &&
               !(us[k].mode.CoalesceExisting? && OnlyCoalesces(us, k, us[k].column));
      var c := us[k].column;
      var i := Differs(sem, us, k);
      var row, incoming := map[c := Int(1)], map[c := i];
      assert Get(row, c) == Int(1) && Get(incoming, c) == i;
      AgreeIff(mysql, standard, table, us, row, incoming, sem, binds);
      assert LeftToRight(row, incoming, sem, binds, xs) != Simultaneous(row, incoming, sem, binds, ys);
    }
  }

  /** Distinct columns are the case in which every update is its column's only one. */
  lemma DistinctIsOrderFree(us: seq<Update>)
    requires Distinct(us)
    ensures OrderFree(us)
  {
    forall k | 0 <= k < |us| ensures !Mentioned(us, k, us[k].column) {
    }
  }

  /** A last overwrite settles a column whatever came before it, repeated additions included. */
  lemma OverwriteSettles(us: seq<Update>, c: string)
    requires forall i :: 0 <= i < |us| ==> us[i].column == c
    ensures OrderFree(us + [Update(c, Overwrite)])
  {
    var all := us + [Update(c, Overwrite)];
    forall k | 0 <= k < |us| ensures !LastMention(all, k) {
      assert all[|us|].column == all[k].column;
    }
  }

  /** As read back from the written clauses. */
  lemma ClausesAgreeIff(mysql: Dialect, standard: Dialect, from: nat, table: string, us: seq<Update>, sem: Semantics,
                        binds: seq<Datum>)
    requires us != [] && Plain(us) && Arithmetic(sem)
    ensures var m := ParseAssignments(UpdatesText(mysql, from, table, us));
            var s := ParseAssignments(UpdatesText(standard, from, table, us));
            && m.Done? && m.rest == [] && s.Done? && s.rest == []
            && (SameRow(m.value, s.value, sem, binds) <==> OrderFree(us))
  {
    hide ParseAssignments, UpdatesText, Assignments, SameRow, OrderFree, Arithmetic;
    UpdatesParse(mysql, from, table, us);
    UpdatesParse(standard, from, table, us);
    AgreeAlwaysIff(mysql, standard, table, us, sem, binds);
  }
}
