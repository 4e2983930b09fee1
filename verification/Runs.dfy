/** Runs of a step machine: folding a step function over a sequence of events. */
module Runs {

  function After<S, E>(step: (S, E) -> S, s: S, es: seq<E>): S {
    if es == [] then s else step(After(step, s, es[..|es| - 1]), es[|es| - 1])
  }

  lemma Extend<S, E>(step: (S, E) -> S, s: S, es: seq<E>, e: E)
    ensures After(step, s, es + [e]) == step(After(step, s, es), e)
  {
    assert (es + [e])[..|es|] == es;
  }

  lemma One<S, E>(step: (S, E) -> S, s: S, e: E)
    ensures After(step, s, [e]) == step(s, e)
  {
    assert [e][..0] == [];
  }

  lemma {:induction false} Concat<S, E>(step: (S, E) -> S, s: S, es: seq<E>, fs: seq<E>)
    ensures After(step, s, es + fs) == After(step, After(step, s, es), fs)
  {
    if fs == [] {
      assert es + fs == es;
    } else {
      var all := es + fs;
      assert all[..|all| - 1] == es + fs[..|fs| - 1];
      Concat(step, s, es, fs[..|fs| - 1]);
    }
  }

  lemma Prefix<S, E>(step: (S, E) -> S, s: S, es: seq<E>, i: nat)
    requires i < |es|
    ensures After(step, s, es[..i + 1]) == step(After(step, s, es[..i]), es[i])
  {
    assert es[..i + 1][..i] == es[..i];
  }

  /** An event, what others do, and what follows. */
  lemma Parts<S, E>(step: (S, E) -> S, s: S, e: E, others: seq<E>, rest: seq<E>)
    ensures After(step, s, [e] + others + rest) == After(step, After(step, step(s, e), others), rest)
  {
    One(step, s, e);
    Concat(step, s, [e], others);
    Concat(step, s, [e] + others, rest);
  }
}
