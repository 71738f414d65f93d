/**
 * Diffing privilege grants by role (crates/orm-cli/src/diff.rs, `diff_grants` and
 * `canonical_privileges`).  Privileges are compared as the sets they confer, so that `ALL`
 * overlapping the specific privileges is accounted for.
 */
module GrantDiff {
  import opened Wrappers
  import opened SchemaModel
  import opened Machines

  /** What a role can do on a table; `Rest` is what ALL confers beyond the four named privileges. */
  datatype Power = CanSelect | CanInsert | CanUpdate | CanDelete | Rest

  function Confers(p: Privilege): set<Power> {
    match p
    case All => {CanSelect, CanInsert, CanUpdate, CanDelete, Rest}
    case Select => {CanSelect}
    case Insert => {CanInsert}
    case Update => {CanUpdate}
    case Delete => {CanDelete}
  }

  function Powers(ps: seq<Privilege>): set<Power> {
    if ps == [] then {} else Powers(ps[..|ps| - 1]) + Confers(ps[|ps| - 1])
  }

  function Order(p: Privilege): nat {
    match p case All => 0 case Select => 1 case Insert => 2 case Update => 3 case Delete => 4
  }

  function Only(ps: seq<Privilege>, p: Privilege): seq<Privilege> {
    if p in ps then [p] else []
  }

  /** `ALL` alone, or the sorted, deduplicated list. */
  function Canonical(ps: seq<Privilege>): (c: seq<Privilege>)
    ensures forall i, j :: 0 <= i < j < |c| ==> Order(c[i]) < Order(c[j])
    ensures All in ps ==> c == [All]
    ensures All !in ps ==>
              && All !in c && (Select in c <==> Select in ps) && (Insert in c <==> Insert in ps)
              && (Update in c <==> Update in ps) && (Delete in c <==> Delete in ps)
  {
    if All in ps then [All]
    else Only(ps, Select) + Only(ps, Insert) + Only(ps, Update) + Only(ps, Delete)
  }

  /** The privilege that names a power; only ALL confers the rest. */
  function Named(w: Power): Privilege {
    match w
    case CanSelect => Select
    case CanInsert => Insert
    case CanUpdate => Update
    case CanDelete => Delete
    case Rest => All
  }

  lemma {:induction false} PowersOf(ps: seq<Privilege>, w: Power)
    ensures w in Powers(ps) <==> All in ps || Named(w) in ps
  {
    if ps != [] {
      var n := |ps| - 1;
      PowersOf(ps[..n], w);
      assert ps == ps[..n] + [ps[n]];
    }
  }

  lemma CanonicalConfersTheSame(ps: seq<Privilege>)
    ensures Powers(Canonical(ps)) == Powers(ps)
  {
    hide Powers, Canonical;
    forall w ensures w in Powers(Canonical(ps)) <==> w in Powers(ps) {
      PowersOf(ps, w);
      PowersOf(Canonical(ps), w);
    }
  }

  /** Comparing canonical lists is comparing the privileges conferred, `ALL` included. */
  lemma CanonicalEqualIff(ps: seq<Privilege>, qs: seq<Privilege>)
    ensures Canonical(ps) == Canonical(qs) <==> Powers(ps) == Powers(qs)
  {
    CanonicalConfersTheSame(ps);
    CanonicalConfersTheSame(qs);
    if Powers(ps) == Powers(qs) {
      SamePowersSameList(ps, qs);
    }
  }

  lemma SamePowersSameList(ps: seq<Privilege>, qs: seq<Privilege>)
    requires Powers(ps) == Powers(qs)
    ensures Canonical(ps) == Canonical(qs)
  {
    forall w ensures All in ps || Named(w) in ps <==> All in qs || Named(w) in qs {
      PowersOf(ps, w);
      PowersOf(qs, w);
    }
    assert Named(Rest) == All && Named(CanSelect) == Select && Named(CanInsert) == Insert;
    assert Named(CanUpdate) == Update && Named(CanDelete) == Delete;
  }

  // ----- Meaning ---------------------------------------------------------------------------------

  datatype GrantEdit = Give(role: Name, privileges: seq<Privilege>) | Revoke(role: Name, privileges: seq<Privilege>)

  /** What each role holds; a role holding nothing is absent. */
  type Held = map<Name, set<Power>>

  function HeldBy(m: Held, role: Name): set<Power> {
    if role in m then m[role] else {}
  }

  function Hold(m: Held, role: Name, powers: set<Power>): Held {
    if powers == {} then m - {role} else m[role := powers]
  }

  function ApplyGrant(m: Held, e: GrantEdit): Held {
    match e
    case Give(role, ps) => Hold(m, role, HeldBy(m, role) + Powers(ps))
    case Revoke(role, ps) => Hold(m, role, HeldBy(m, role) - Powers(ps))
  }

  /** A grant meets a role without privileges; a revoke takes exactly what the role holds. */
  predicate FitsGrant(m: Held, e: GrantEdit) {
    match e
    case Give(role, ps) => role !in m && Powers(ps) != {}
    case Revoke(role, ps) => role in m && m[role] == Powers(ps) && Powers(ps) != {}
  }

  function UndoGrant(m: Held, e: GrantEdit): Held {
    match e
    case Give(role, ps) => ApplyGrant(m, Revoke(role, ps))
    case Revoke(role, ps) => ApplyGrant(m, Give(role, ps))
  }

  const GRANTS: Machine<Held, GrantEdit> := Machine(ApplyGrant, FitsGrant, UndoGrant)

  lemma GrantsReverse(m: Held, e: GrantEdit)
    requires FitsGrant(m, e)
    ensures UndoGrant(ApplyGrant(m, e), e) == m
  {
    var powers := Powers(e.privileges);
    assert {} + powers == powers && powers - powers == {};
    assert e.Give? ==> m[e.role := powers] - {e.role} == m;
    assert e.Revoke? ==> (m - {e.role})[e.role := powers] == m;
  }

  ghost function Denote(gs: seq<Grant>): Held {
    if gs == [] then map[] else Denote(gs[..|gs| - 1])[gs[|gs| - 1].role := Powers(gs[|gs| - 1].privileges)]
  }

  lemma {:induction false} DenoteRoles(gs: seq<Grant>, role: Name)
    ensures role in Denote(gs) <==> exists g :: g in gs && g.role == role
  {
    if gs != [] {
      var n := |gs| - 1;
      DenoteRoles(gs[..n], role);
      assert gs == gs[..n] + [gs[n]];
    }
  }

  lemma {:induction false} DenoteOf(gs: seq<Grant>, i: nat)
    requires UniqueKeys(gs, GrantRole) && i < |gs|
    ensures gs[i].role in Denote(gs) && Denote(gs)[gs[i].role] == Powers(gs[i].privileges)
  {
    var n := |gs| - 1;
    if i < n {
      DenoteOf(gs[..n], i);
      assert GrantRole(gs[i]) != GrantRole(gs[n]);
    }
  }

  // ----- The edit list -----------------------------------------------------------------------------

  /** Full replacement: revoke the old set, then grant the new. */
  function Regrant(g: Grant, olds: seq<Grant>): seq<GrantEdit> {
    match Find(olds, GrantRole, g.role)
    case None => [Give(g.role, Canonical(g.privileges))]
    case Some(previous) =>
      if Canonical(previous.privileges) != Canonical(g.privileges)
      then [Revoke(g.role, Canonical(previous.privileges)), Give(g.role, Canonical(g.privileges))]
      else []
  }

  function Regrants(news: seq<Grant>, olds: seq<Grant>): seq<GrantEdit> {
    if news == [] then [] else Regrants(news[..|news| - 1], olds) + Regrant(news[|news| - 1], olds)
  }

  function Withdrawal(g: Grant, news: seq<Grant>): seq<GrantEdit> {
    if Find(news, GrantRole, g.role).None? then [Revoke(g.role, Canonical(g.privileges))] else []
  }

  function Withdrawals(olds: seq<Grant>, news: seq<Grant>): seq<GrantEdit> {
    if olds == [] then [] else Withdrawals(olds[..|olds| - 1], news) + Withdrawal(olds[|olds| - 1], news)
  }

  function GrantEdits(olds: seq<Grant>, news: seq<Grant>): seq<GrantEdit> {
    Regrants(news, olds) + Withdrawals(olds, news)
  }

  // ----- Running it ---------------------------------------------------------------------------------

  ghost predicate WellFormedGrants(gs: seq<Grant>) {
    UniqueKeys(gs, GrantRole) && forall g :: g in gs ==> g.privileges != []
  }

  lemma PrivilegesConfer(ps: seq<Privilege>)
    requires ps != []
    ensures Powers(ps) != {}
  {
    var p := ps[|ps| - 1];
    assert Confers(p) != {};
    var w :| w in Confers(p);
    assert w in Powers(ps);
  }

  /** Replacing one role's grant, wherever the others stand. */
  lemma OneRegrant(m: Held, g: Grant, olds: seq<Grant>)
    requires WellFormedGrants(olds) && g.privileges != []
    requires g.role in m <==> g.role in Denote(olds)
    requires g.role in m ==> m[g.role] == Denote(olds)[g.role]
    ensures AllFit(GRANTS, m, Regrant(g, olds))
    ensures Run(GRANTS, m, Regrant(g, olds)) == m[g.role := Powers(g.privileges)]
  {
    hide Run, AllFit, Powers, Canonical, Denote;
    PrivilegesConfer(g.privileges);
    CanonicalConfersTheSame(g.privileges);
    DenoteRoles(olds, g.role);
    var found := Find(olds, GrantRole, g.role);
    if found.None? {
      OneEdit(m, Give(g.role, Canonical(g.privileges)));
      assert {} + Powers(g.privileges) == Powers(g.privileges);
    } else {
      var i :| 0 <= i < |olds| && olds[i] == found.value;
      DenoteOf(olds, i);
      CanonicalConfersTheSame(found.value.privileges);
      CanonicalEqualIff(found.value.privileges, g.privileges);
      PrivilegesConfer(found.value.privileges);
      TwoEdits(m, g.role, Canonical(found.value.privileges), Canonical(g.privileges));
      NoGrantEdits(m);
    }
  }

  lemma OneEdit(m: Held, e: GrantEdit)
    requires FitsGrant(m, e)
    ensures AllFit(GRANTS, m, [e]) && Run(GRANTS, m, [e]) == ApplyGrant(m, e)
  {
    assert [e][..0] == [];
  }

  lemma TwoEdits(m: Held, role: Name, ps: seq<Privilege>, qs: seq<Privilege>)
    requires FitsGrant(m, Revoke(role, ps)) && Powers(qs) != {}
    ensures AllFit(GRANTS, m, [Revoke(role, ps), Give(role, qs)])
    ensures Run(GRANTS, m, [Revoke(role, ps), Give(role, qs)]) == m[role := Powers(qs)]
  {
    OneEdit(m, Revoke(role, ps));
    OneEdit(ApplyGrant(m, Revoke(role, ps)), Give(role, qs));
    assert [Revoke(role, ps), Give(role, qs)] == [Revoke(role, ps)] + [Give(role, qs)];
    RunConcat(GRANTS, m, [Revoke(role, ps)], [Give(role, qs)]);
    FitConcat(GRANTS, m, [Revoke(role, ps)], [Give(role, qs)]);
    assert Powers(ps) - Powers(ps) == {} && {} + Powers(qs) == Powers(qs);
    assert (m - {role})[role := Powers(qs)] == m[role := Powers(qs)];
  }

  lemma {:induction false} RunRegrants(olds: seq<Grant>, news: seq<Grant>, n: nat)
    requires WellFormedGrants(olds) && WellFormedGrants(news) && n <= |news|
    ensures AllFit(GRANTS, Denote(olds), Regrants(news[..n], olds))
    ensures Run(GRANTS, Denote(olds), Regrants(news[..n], olds)) == Denote(olds) + Denote(news[..n])
  {
    hide Run, AllFit, Regrant, Powers, Canonical, Denote, Regrants;
    if n == 0 {
      NoGrantEdits(Denote(olds));
      NoGrants(news, olds);
    } else {
      RunRegrants(olds, news, n - 1);
      GrantsStep(news, n - 1, olds);
      var g, m := news[n - 1], Denote(olds) + Denote(news[..n - 1]);
      DenoteRoles(news[..n - 1], g.role);
      assert g.role !in Denote(news[..n - 1]) by {
        assert forall i :: 0 <= i < n - 1 ==> GrantRole(news[i]) != GrantRole(g);
      }
      OneRegrant(m, g, olds);
      RunConcat(GRANTS, Denote(olds), Regrants(news[..n - 1], olds), Regrant(g, olds));
      FitConcat(GRANTS, Denote(olds), Regrants(news[..n - 1], olds), Regrant(g, olds));
      assert m[g.role := Powers(g.privileges)] == Denote(olds) + Denote(news[..n]);
    }
  }

  lemma GrantsStep(gs: seq<Grant>, n: nat, others: seq<Grant>)
    requires n < |gs|
    ensures Denote(gs[..n + 1]) == Denote(gs[..n])[gs[n].role := Powers(gs[n].privileges)]
    ensures Regrants(gs[..n + 1], others) == Regrants(gs[..n], others) + Regrant(gs[n], others)
  {
    assert gs[..n + 1][..n] == gs[..n];
  }

  lemma NoGrants(gs: seq<Grant>, others: seq<Grant>)
    ensures gs[..0] == [] && Denote(gs[..0]) == map[] && Regrants(gs[..0], others) == []
  {
  }

  lemma NoGrantEdits(m: Held)
    ensures AllFit(GRANTS, m, []) && Run(GRANTS, m, []) == m == m + Denote([])
  {
    assert m + map[] == m;
  }

  ghost function Orphans(olds: seq<Grant>, news: seq<Grant>): set<Name> {
    set g | g in olds && Find(news, GrantRole, g.role).None? :: g.role
  }

  lemma {:induction false} RunWithdrawals(m: Held, olds: seq<Grant>, news: seq<Grant>, n: nat)
    requires WellFormedGrants(olds) && n <= |olds|
    requires forall i :: 0 <= i < |olds| && Find(news, GrantRole, olds[i].role).None? ==>
               olds[i].role in m && m[olds[i].role] == Powers(olds[i].privileges)
    ensures AllFit(GRANTS, m, Withdrawals(olds[..n], news))
    ensures Run(GRANTS, m, Withdrawals(olds[..n], news)) == m - Orphans(olds[..n], news)
  {
    hide Run, AllFit, Powers, Canonical, Find, Orphans, Withdrawals, Withdrawal;
    WithdrawalsStep(olds, n, news);
    if n == 0 {
      NoGrantEdits(m);
    } else {
      RunWithdrawals(m, olds, news, n - 1);
      var g := olds[n - 1];
      if Find(news, GrantRole, g.role).None? {
        OneWithdrawal(m - Orphans(olds[..n - 1], news), g);
        RunConcat(GRANTS, m, Withdrawals(olds[..n - 1], news), [Revoke(g.role, Canonical(g.privileges))]);
        FitConcat(GRANTS, m, Withdrawals(olds[..n - 1], news), [Revoke(g.role, Canonical(g.privileges))]);
        assert m - Orphans(olds[..n - 1], news) - {g.role} == m - (Orphans(olds[..n - 1], news) + {g.role});
      }
    }
  }

  lemma OneWithdrawal(m: Held, g: Grant)
    requires g.role in m && m[g.role] == Powers(g.privileges) && g.privileges != []
    ensures AllFit(GRANTS, m, [Revoke(g.role, Canonical(g.privileges))])
    ensures Run(GRANTS, m, [Revoke(g.role, Canonical(g.privileges))]) == m - {g.role}
  {
    CanonicalConfersTheSame(g.privileges);
    PrivilegesConfer(g.privileges);
    OneEdit(m, Revoke(g.role, Canonical(g.privileges)));
  }

  lemma WithdrawalsStep(olds: seq<Grant>, n: nat, news: seq<Grant>)
    requires n <= |olds| && UniqueKeys(olds, GrantRole)
    ensures n == 0 ==> Withdrawals(olds[..n], news) == [] && Orphans(olds[..n], news) == {}
    ensures n > 0 && Find(news, GrantRole, olds[n - 1].role).None? ==>
              && Withdrawals(olds[..n], news) ==
                 Withdrawals(olds[..n - 1], news) + [Revoke(olds[n - 1].role, Canonical(olds[n - 1].privileges))]
              && Orphans(olds[..n], news) == Orphans(olds[..n - 1], news) + {olds[n - 1].role}
              && olds[n - 1].role !in Orphans(olds[..n - 1], news)
    ensures n > 0 && Find(news, GrantRole, olds[n - 1].role).Some? ==>
              && Withdrawals(olds[..n], news) == Withdrawals(olds[..n - 1], news)
              && Orphans(olds[..n], news) == Orphans(olds[..n - 1], news)
  {
    hide Canonical, Find;
    if n > 0 {
      assert olds[..n][..n - 1] == olds[..n - 1];
      assert olds[..n] == olds[..n - 1] + [olds[n - 1]];
      assert forall i :: 0 <= i < n - 1 ==> GrantRole(olds[i]) != GrantRole(olds[n - 1]);
    }
  }

  /** Revokes and grants each meet the state they expect, and every role ends with the new set. */
  lemma GrantEditsCorrect(olds: seq<Grant>, news: seq<Grant>)
    requires WellFormedGrants(olds) && WellFormedGrants(news)
    ensures AllFit(GRANTS, Denote(olds), GrantEdits(olds, news))
    ensures Run(GRANTS, Denote(olds), GrantEdits(olds, news)) == Denote(news)
  {
    hide Run, AllFit, Powers, Regrants, Withdrawals;
    assert news[..|news|] == news && olds[..|olds|] == olds;
    RunRegrants(olds, news, |news|);
    var m := Denote(olds) + Denote(news);
    forall i | 0 <= i < |olds| && Find(news, GrantRole, olds[i].role).None?
      ensures olds[i].role in m && m[olds[i].role] == Powers(olds[i].privileges)
    {
      DenoteOf(olds, i);
      DenoteRoles(news, olds[i].role);
    }
    RunWithdrawals(m, olds, news, |olds|);
    RunConcat(GRANTS, Denote(olds), Regrants(news, olds), Withdrawals(olds, news));
    FitConcat(GRANTS, Denote(olds), Regrants(news, olds), Withdrawals(olds, news));
    forall role ensures role in m - Orphans(olds, news) <==> role in Denote(news) {
      DenoteRoles(olds, role);
      DenoteRoles(news, role);
    }
    assert m - Orphans(olds, news) == Denote(news);
  }
}
