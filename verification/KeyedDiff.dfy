/**
 * Diffing a list keyed by name: a gone or changed entry is dropped, then a new or changed one
 * created (crates/orm-cli/src/diff.rs, `diff_policies` and `diff_table_indexes`).
 */
module KeyedDiff {
  import opened Wrappers
  import opened SchemaModel
  import opened Machines

  datatype KeyedEdit<T> = Take(value: T) | Put(value: T)

  function ApplyKeyed<T>(key: T -> Name, m: map<Name, T>, e: KeyedEdit<T>): map<Name, T> {
    match e
    case Take(v) => m - {key(v)}
    case Put(v) => m[key(v) := v]
  }

  /** A drop meets exactly the entry it names; a create meets a free name. */
  predicate FitsKeyed<T(==)>(key: T -> Name, m: map<Name, T>, e: KeyedEdit<T>) {
    match e
    case Take(v) => key(v) in m && m[key(v)] == v
    case Put(v) => key(v) !in m
  }

  function UndoKeyed<T>(key: T -> Name, m: map<Name, T>, e: KeyedEdit<T>): map<Name, T> {
    match e
    case Take(v) => m[key(v) := v]
    case Put(v) => m - {key(v)}
  }

  function Keyed<T(==)>(key: T -> Name): Machine<map<Name, T>, KeyedEdit<T>> {
    Machine((m, e) => ApplyKeyed(key, m, e), (m, e) => FitsKeyed(key, m, e), (m, e) => UndoKeyed(key, m, e))
  }

  lemma KeyedReverses<T>(key: T -> Name, m: map<Name, T>, e: KeyedEdit<T>)
    requires FitsKeyed(key, m, e)
    ensures UndoKeyed(key, ApplyKeyed(key, m, e), e) == m
  {
  }

  // ----- The edit list ------------------------------------------------------------------------

  predicate Differs<T(==)>(x: T, others: seq<T>, key: T -> Name) {
    Find(others, key, key(x)) != Some(x)
  }

  function Removals<T(==)>(xs: seq<T>, others: seq<T>, key: T -> Name): seq<KeyedEdit<T>> {
    if xs == [] then [] else
      Removals(xs[..|xs| - 1], others, key) +
      (if Differs(xs[|xs| - 1], others, key) then [Take(xs[|xs| - 1])] else [])
  }

  function Insertions<T(==)>(xs: seq<T>, others: seq<T>, key: T -> Name): seq<KeyedEdit<T>> {
    if xs == [] then [] else
      Insertions(xs[..|xs| - 1], others, key) +
      (if Differs(xs[|xs| - 1], others, key) then [Put(xs[|xs| - 1])] else [])
  }

  function KeyedEdits<T(==)>(before: seq<T>, after: seq<T>, key: T -> Name): seq<KeyedEdit<T>> {
    Removals(before, after, key) + Insertions(after, before, key)
  }

  lemma EditsStep<T>(xs: seq<T>, n: nat, others: seq<T>, key: T -> Name)
    requires n < |xs|
    ensures Removals(xs[..n + 1], others, key) ==
            if Differs(xs[n], others, key) then Removals(xs[..n], others, key) + [Take(xs[n])]
            else Removals(xs[..n], others, key)
    ensures Insertions(xs[..n + 1], others, key) ==
            if Differs(xs[n], others, key) then Insertions(xs[..n], others, key) + [Put(xs[n])]
            else Insertions(xs[..n], others, key)
  {
    assert xs[..n + 1][..n] == xs[..n];
  }

  // ----- Running it turns one list into the other -----------------------------------------------

  ghost function DifferingKeys<T(!new)>(xs: seq<T>, others: seq<T>, key: T -> Name): set<Name> {
    set x | x in xs && Differs(x, others, key) :: key(x)
  }

  lemma DifferingSnoc<T(!new)>(xs: seq<T>, n: nat, others: seq<T>, key: T -> Name)
    requires n < |xs|
    ensures DifferingKeys(xs[..n + 1], others, key) ==
            if Differs(xs[n], others, key) then DifferingKeys(xs[..n], others, key) + {key(xs[n])}
            else DifferingKeys(xs[..n], others, key)
  {
    assert xs[..n + 1] == xs[..n] + [xs[n]];
  }

  lemma NewKey<T(!new)>(xs: seq<T>, n: nat, others: seq<T>, key: T -> Name)
    requires n < |xs| && UniqueKeys(xs, key)
    ensures key(xs[n]) !in DifferingKeys(xs[..n], others, key)
  {
  }

  lemma NothingYet<T(!new)>(m: map<Name, T>, xs: seq<T>, others: seq<T>, key: T -> Name)
    ensures DifferingKeys(xs[..0], others, key) == {}
    ensures Run(Keyed(key), m, Removals(xs[..0], others, key)) == m - {}
    ensures Extends(Run(Keyed(key), m, Insertions(xs[..0], others, key)), m, {}, ByKey(xs, key))
    ensures AllFit(Keyed(key), m, Removals(xs[..0], others, key))
    ensures AllFit(Keyed(key), m, Insertions(xs[..0], others, key))
  {
  }

  lemma OneRemoval<T(!new)>(m: map<Name, T>, done: seq<KeyedEdit<T>>, gone: set<Name>, x: T, key: T -> Name)
    requires Run(Keyed(key), m, done) == m - gone && AllFit(Keyed(key), m, done)
    requires key(x) in m && m[key(x)] == x && key(x) !in gone
    ensures Run(Keyed(key), m, done + [Take(x)]) == m - (gone + {key(x)})
    ensures AllFit(Keyed(key), m, done + [Take(x)])
  {
    RunSnoc(Keyed(key), m, done, Take(x));
    FitSnoc(Keyed(key), m, done, Take(x));
  }

  lemma {:induction false} RunRemovals<T(!new)>(xs: seq<T>, n: nat, others: seq<T>, key: T -> Name)
    requires n <= |xs| && UniqueKeys(xs, key)
    ensures Run(Keyed(key), ByKey(xs, key), Removals(xs[..n], others, key))
            == ByKey(xs, key) - DifferingKeys(xs[..n], others, key)
    ensures AllFit(Keyed(key), ByKey(xs, key), Removals(xs[..n], others, key))
  {
    hide ByKey, DifferingKeys, UniqueKeys, Run, AllFit, Differs, Removals, Keyed;
    if n == 0 {
      NothingYet(ByKey(xs, key), xs, others, key);
    } else {
      RunRemovals(xs, n - 1, others, key);
      DifferingSnoc(xs, n - 1, others, key);
      EditsStep(xs, n - 1, others, key);
      if Differs(xs[n - 1], others, key) {
        NewKey(xs, n - 1, others, key);
        ByKeyIn(xs, key, xs[n - 1]);
        OneRemoval(ByKey(xs, key), Removals(xs[..n - 1], others, key),
                   DifferingKeys(xs[..n - 1], others, key), xs[n - 1], key);
      }
    }
  }

  /** `out` extends `m` by the entries of `xs` under the keys `added`. */
  ghost predicate Extends<T(!new)>(out: map<Name, T>, m: map<Name, T>, added: set<Name>, all: map<Name, T>) {
    && out.Keys == m.Keys + added
    && (forall k :: k in m ==> out[k] == m[k])
    && (forall k :: k in added ==> k in all && out[k] == all[k])
  }

  lemma OneInsertion<T(!new)>(
    m: map<Name, T>, done: seq<KeyedEdit<T>>, added: set<Name>, all: map<Name, T>, x: T, key: T -> Name)
    requires Extends(Run(Keyed(key), m, done), m, added, all) && AllFit(Keyed(key), m, done)
    requires key(x) in all && all[key(x)] == x && key(x) !in added && key(x) !in m
    ensures Extends(Run(Keyed(key), m, done + [Put(x)]), m, added + {key(x)}, all)
    ensures AllFit(Keyed(key), m, done + [Put(x)])
  {
    RunSnoc(Keyed(key), m, done, Put(x));
    FitSnoc(Keyed(key), m, done, Put(x));
  }

  lemma {:induction false} RunInsertions<T(!new)>(m: map<Name, T>, xs: seq<T>, n: nat, others: seq<T>, key: T -> Name)
    requires n <= |xs| && UniqueKeys(xs, key)
    requires forall x :: x in xs && Differs(x, others, key) ==> key(x) !in m
    ensures Extends(Run(Keyed(key), m, Insertions(xs[..n], others, key)), m,
                    DifferingKeys(xs[..n], others, key), ByKey(xs, key))
    ensures AllFit(Keyed(key), m, Insertions(xs[..n], others, key))
  {
    hide ByKey, DifferingKeys, UniqueKeys, Run, AllFit, Differs, Insertions, Extends;
    if n == 0 {
      NothingYet(m, xs, others, key);
    } else {
      RunInsertions(m, xs, n - 1, others, key);
      DifferingSnoc(xs, n - 1, others, key);
      EditsStep(xs, n - 1, others, key);
      if Differs(xs[n - 1], others, key) {
        NewKey(xs, n - 1, others, key);
        ByKeyIn(xs, key, xs[n - 1]);
        OneInsertion(m, Insertions(xs[..n - 1], others, key), DifferingKeys(xs[..n - 1], others, key),
                     ByKey(xs, key), xs[n - 1], key);
      }
    }
  }

  /** Every drop and create meets its entry or a free name, and the result is the new list. */
  lemma KeyedEditsCorrect<T(!new)>(before: seq<T>, after: seq<T>, key: T -> Name)
    requires UniqueKeys(before, key) && UniqueKeys(after, key)
    ensures Run(Keyed(key), ByKey(before, key), KeyedEdits(before, after, key)) == ByKey(after, key)
    ensures AllFit(Keyed(key), ByKey(before, key), KeyedEdits(before, after, key))
  {
    var kept := ByKey(before, key) - DifferingKeys(before, after, key);
    assert before[..|before|] == before && after[..|after|] == after;
    RunRemovals(before, |before|, after, key);
    SharedKeys(before, after, key);
    RunInsertions(kept, after, |after|, before, key);
    RunConcat(Keyed(key), ByKey(before, key), Removals(before, after, key), Insertions(after, before, key));
    FitConcat(Keyed(key), ByKey(before, key), Removals(before, after, key), Insertions(after, before, key));
    Completed(Run(Keyed(key), kept, Insertions(after, before, key)), kept,
              DifferingKeys(after, before, key), ByKey(after, key));
  }

  lemma Completed<T(!new)>(out: map<Name, T>, kept: map<Name, T>, added: set<Name>, all: map<Name, T>)
    requires Extends(out, kept, added, all) && kept.Keys + added == all.Keys
    requires forall k :: k in kept ==> all[k] == kept[k]
    ensures out == all
  {
    assert forall k :: k in all ==> k in out && out[k] == all[k];
  }

  /** What survives the drops is what both lists hold unchanged. */
  lemma SharedKeys<T(!new)>(before: seq<T>, after: seq<T>, key: T -> Name)
    requires UniqueKeys(before, key) && UniqueKeys(after, key)
    ensures var kept := ByKey(before, key) - DifferingKeys(before, after, key);
            && kept.Keys + DifferingKeys(after, before, key) == ByKey(after, key).Keys
            && (forall k :: k in kept ==> k in ByKey(after, key) && ByKey(after, key)[k] == kept[k])
            && (forall x :: x in after && Differs(x, before, key) ==> key(x) !in kept)
  {
    forall k ensures k in ByKey(before, key) && k !in DifferingKeys(before, after, key) ==>
                       k in ByKey(after, key) && ByKey(after, key)[k] == ByKey(before, key)[k]
    {
      if k in ByKey(before, key) {
        FindIsLookup(after, key, k);
      }
    }
    forall k ensures k in ByKey(after, key) && k !in DifferingKeys(after, before, key) ==>
                       k in ByKey(before, key) && ByKey(after, key)[k] == ByKey(before, key)[k]
    {
      if k in ByKey(after, key) {
        FindIsLookup(before, key, k);
      }
    }
    forall x | x in after && Differs(x, before, key)
      ensures key(x) in ByKey(before, key) ==> key(x) in DifferingKeys(before, after, key)
    {
      FindIsLookup(before, key, key(x));
      ByKeyIn(after, key, x);
      FindIsLookup(after, key, key(x));
    }
    forall k | k in ByKey(before, key) && k !in DifferingKeys(before, after, key)
      ensures k !in DifferingKeys(after, before, key)
    {
    }
  }
}
