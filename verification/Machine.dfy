/**
 * Edit scripts over a state: what it means to run one, when each edit fits where it is applied,
 * and when undoing it in reverse restores every state on the way.
 */
module Machines {
  datatype Machine<!S, !E> = Machine(apply: (S, E) -> S, fits: (S, E) -> bool, undo: (S, E) -> S)

  function Run<S, E>(m: Machine<S, E>, s: S, es: seq<E>): S {
    if es == [] then s else m.apply(Run(m, s, es[..|es| - 1]), es[|es| - 1])
  }

  /** The inverse edits, last one first. */
  function Rewind<S, E>(m: Machine<S, E>, s: S, es: seq<E>): S {
    if es == [] then s else Rewind(m, m.undo(s, es[|es| - 1]), es[..|es| - 1])
  }

  /** `q` holds of every edit and the state it meets. */
  ghost predicate Throughout<S, E>(m: Machine<S, E>, s: S, es: seq<E>, q: (S, E) -> bool) {
    forall k :: 0 <= k < |es| ==> q(Run(m, s, es[..k]), es[k])
  }

  /** Every edit meets a state it fits. */
  ghost predicate AllFit<S, E>(m: Machine<S, E>, s: S, es: seq<E>) {
    forall k :: 0 <= k < |es| ==> m.fits(Run(m, s, es[..k]), es[k])
  }

  /** Every state on the way, the first and the last included, satisfies `p`. */
  ghost predicate Always<S, E>(m: Machine<S, E>, s: S, es: seq<E>, p: S -> bool) {
    forall k :: 0 <= k <= |es| ==> p(Run(m, s, es[..k]))
  }

  ghost predicate Reversible<S(!new), E(!new)>(m: Machine<S, E>) {
    forall s, e :: m.fits(s, e) ==> m.undo(m.apply(s, e), e) == s
  }

  lemma RunSnoc<S, E>(m: Machine<S, E>, s: S, es: seq<E>, e: E)
    ensures Run(m, s, es + [e]) == m.apply(Run(m, s, es), e)
  {
    assert (es + [e])[..|es|] == es;
  }

  lemma {:induction false} RunConcat<S, E>(m: Machine<S, E>, s: S, a: seq<E>, b: seq<E>)
    ensures Run(m, s, a + b) == Run(m, Run(m, s, a), b)
  {
    if b == [] {
      assert a + b == a;
    } else {
      var n := |b| - 1;
      RunConcat(m, s, a, b[..n]);
      assert a + b == (a + b[..n]) + [b[n]];
      RunSnoc(m, s, a + b[..n], b[n]);
    }
  }

  lemma PrefixOfConcat<S, E>(m: Machine<S, E>, s: S, a: seq<E>, b: seq<E>, k: nat)
    requires k <= |a + b|
    ensures Run(m, s, (a + b)[..k]) ==
            if k <= |a| then Run(m, s, a[..k]) else Run(m, Run(m, s, a), b[..k - |a|])
  {
    if k <= |a| {
      assert (a + b)[..k] == a[..k];
    } else {
      assert (a + b)[..k] == a + b[..k - |a|];
      RunConcat(m, s, a, b[..k - |a|]);
    }
  }

  lemma FitConcat<S, E>(m: Machine<S, E>, s: S, a: seq<E>, b: seq<E>)
    requires AllFit(m, s, a) && AllFit(m, Run(m, s, a), b)
    ensures AllFit(m, s, a + b)
  {
    forall k | 0 <= k < |a + b| ensures m.fits(Run(m, s, (a + b)[..k]), (a + b)[k]) {
      PrefixOfConcat(m, s, a, b, k);
      assert a[..|a|] == a && b[..0] == [];
    }
  }

  lemma ThroughoutConcat<S, E>(m: Machine<S, E>, s: S, a: seq<E>, b: seq<E>, q: (S, E) -> bool)
    requires Throughout(m, s, a, q) && Throughout(m, Run(m, s, a), b, q)
    ensures Throughout(m, s, a + b, q)
  {
    forall k | 0 <= k < |a + b| ensures q(Run(m, s, (a + b)[..k]), (a + b)[k]) {
      PrefixOfConcat(m, s, a, b, k);
      assert a[..|a|] == a && b[..0] == [];
    }
  }

  lemma ThroughoutSplit<S, E>(m: Machine<S, E>, s: S, a: seq<E>, b: seq<E>, q: (S, E) -> bool)
    requires Throughout(m, s, a + b, q)
    ensures Throughout(m, s, a, q) && Throughout(m, Run(m, s, a), b, q)
  {
    forall k | 0 <= k < |a| ensures q(Run(m, s, a[..k]), a[k]) {
      PrefixOfConcat(m, s, a, b, k);
      assert (a + b)[k] == a[k];
    }
    forall k | 0 <= k < |b| ensures q(Run(m, Run(m, s, a), b[..k]), b[k]) {
      PrefixOfConcat(m, s, a, b, |a| + k);
      assert (a + b)[|a| + k] == b[k] && a[..|a|] == a && b[..0] == [];
    }
  }

  lemma AlwaysAt<S, E>(m: Machine<S, E>, s: S, es: seq<E>, p: S -> bool, k: nat)
    requires Always(m, s, es, p) && k <= |es|
    ensures p(Run(m, s, es[..k]))
  {
  }

  /** One fitting edit at a time. */
  lemma FitSnoc<S, E>(m: Machine<S, E>, s: S, es: seq<E>, e: E)
    requires AllFit(m, s, es) && m.fits(Run(m, s, es), e)
    ensures AllFit(m, s, es + [e])
  {
    var es' := es + [e];
    forall k | 0 <= k < |es'| ensures m.fits(Run(m, s, es'[..k]), es'[k]) {
      assert es'[..k] == if k < |es| then es[..k] else es;
    }
  }

  lemma FitPrefix<S, E>(m: Machine<S, E>, s: S, es: seq<E>, n: nat)
    requires AllFit(m, s, es) && n <= |es|
    ensures AllFit(m, s, es[..n])
  {
    forall k | 0 <= k < n ensures m.fits(Run(m, s, es[..n][..k]), es[..n][k]) {
      assert es[..n][..k] == es[..k];
    }
  }

  /**
   * Undoing the last edits of a fitting script, newest first, leads back through exactly the
   * states the script went through: after undoing down to `k`, the state is the one after `k` edits.
   */
  lemma {:induction false} RewindRetraces<S(!new), E(!new)>(m: Machine<S, E>, s: S, es: seq<E>, k: nat)
    requires Reversible(m) && AllFit(m, s, es) && k <= |es|
    ensures Rewind(m, Run(m, s, es), es[k..]) == Run(m, s, es[..k])
    decreases |es| - k
  {
    if k == |es| {
      assert es[..k] == es && es[k..] == [];
    } else {
      var n := |es| - 1;
      FitPrefix(m, s, es, n);
      RewindRetraces(m, s, es[..n], k);
      assert es[..n][..k] == es[..k] && es[k..][..n - k] == es[..n][k..] && es[k..][n - k] == es[n];
      assert m.fits(Run(m, s, es[..n]), es[n]);
    }
  }

  /** In particular a whole script, or any prefix of one, is undone exactly. */
  lemma RewindRestores<S(!new), E(!new)>(m: Machine<S, E>, s: S, es: seq<E>, n: nat)
    requires Reversible(m) && AllFit(m, s, es) && n <= |es|
    ensures Rewind(m, Run(m, s, es[..n]), es[..n]) == s
  {
    FitPrefix(m, s, es, n);
    RewindRetraces(m, s, es[..n], 0);
    assert es[..n][0..] == es[..n] && es[..n][..0] == [];
  }

  // ----- A part of a state edited on its own ---------------------------------------------------

  function Wrap<E, F>(wrap: F -> E, fs: seq<F>): seq<E> {
    seq(|fs|, i requires 0 <= i < |fs| => wrap(fs[i]))
  }

  lemma WrapAt<E, F>(wrap: F -> E, fs: seq<F>, i: nat)
    requires i < |fs|
    ensures |Wrap(wrap, fs)| == |fs| && Wrap(wrap, fs)[i] == wrap(fs[i])
  {
  }

  /** Where a part lives in the whole, and how an edit of the part is an edit of the whole. */
  datatype Lens<!S, !E, !T, !F> = Lens(get: S -> T, put: (S, T) -> S, wrap: F -> E)

  ghost predicate Embeds<S(!new), E(!new), T(!new), F(!new)>(
    big: Machine<S, E>, small: Machine<T, F>, l: Lens<S, E, T, F>, s: S)
  {
    && l.put(s, l.get(s)) == s
    && (forall t, u :: l.put(l.put(s, t), u) == l.put(s, u))
    && (forall t, f :: big.apply(l.put(s, t), l.wrap(f)) == l.put(s, small.apply(t, f)))
    && (forall t, f :: small.fits(t, f) ==> big.fits(l.put(s, t), l.wrap(f)))
  }

  /** Running the part's script inside the whole changes the part, and only the part. */
  lemma {:induction false} RunPart<S(!new), E(!new), T(!new), F(!new)>(
    big: Machine<S, E>, small: Machine<T, F>, l: Lens<S, E, T, F>, s: S, fs: seq<F>)
    requires Embeds(big, small, l, s)
    ensures Run(big, s, Wrap(l.wrap, fs)) == l.put(s, Run(small, l.get(s), fs))
  {
    if fs != [] {
      var n := |fs| - 1;
      RunPart(big, small, l, s, fs[..n]);
      assert Wrap(l.wrap, fs) == Wrap(l.wrap, fs[..n]) + [l.wrap(fs[n])];
      RunSnoc(big, s, Wrap(l.wrap, fs[..n]), l.wrap(fs[n]));
    }
  }

  lemma FitPart<S(!new), E(!new), T(!new), F(!new)>(
    big: Machine<S, E>, small: Machine<T, F>, l: Lens<S, E, T, F>, s: S, fs: seq<F>)
    requires Embeds(big, small, l, s) && AllFit(small, l.get(s), fs)
    ensures AllFit(big, s, Wrap(l.wrap, fs))
  {
    forall k | 0 <= k < |fs| ensures big.fits(Run(big, s, Wrap(l.wrap, fs)[..k]), Wrap(l.wrap, fs)[k]) {
      assert Wrap(l.wrap, fs)[..k] == Wrap(l.wrap, fs[..k]);
      RunPart(big, small, l, s, fs[..k]);
    }
  }
}
