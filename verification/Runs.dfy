/** Labelled transition systems: the interleavings of goroutines, the environment and crashes. */
module Runs {
  /** What may happen, and what it does when it happens. */
  datatype Machine<!S(!new), !L(!new)> = Machine(enabled: (S, L) -> bool, step: (S, L) -> S) {

    predicate IsRun(s: S, ls: seq<L>)
      decreases |ls|
    {
      |ls| == 0 || (enabled(s, ls[0]) && IsRun(step(s, ls[0]), ls[1..]))
    }

    function After(s: S, ls: seq<L>): S
      decreases |ls|
    {
      if |ls| == 0 then s else After(step(s, ls[0]), ls[1..])
    }

    /** What every step keeps holds after every run. */
    lemma {:induction false} Always(inv: S -> bool, s: S, ls: seq<L>)
      requires inv(s) && IsRun(s, ls)
      requires forall s, l :: inv(s) && enabled(s, l) ==> inv(step(s, l))
      ensures inv(After(s, ls))
      decreases |ls|
    {
      if |ls| > 0 {
        Always(inv, step(s, ls[0]), ls[1..]);
      }
    }

    /** A relation between states that is reflexive, transitive and kept by steps relates the ends
        of every run. */
    lemma {:induction false} Relates(inv: S -> bool, rel: (S, S) -> bool, s: S, ls: seq<L>)
      requires inv(s) && IsRun(s, ls)
      requires forall s, l :: inv(s) && enabled(s, l) ==> inv(step(s, l)) && rel(s, step(s, l))
      requires forall s :: rel(s, s)
      requires forall s, t, u :: rel(s, t) && rel(t, u) ==> rel(s, u)
      ensures rel(s, After(s, ls))
      decreases |ls|
    {
      if |ls| > 0 {
        var t := step(s, ls[0]);
        Relates(inv, rel, t, ls[1..]);
        assert rel(s, t) && rel(t, After(t, ls[1..]));
      }
    }

    /** One more step before a run. */
    lemma Cons(s: S, l: L, ls: seq<L>)
      requires enabled(s, l) && IsRun(step(s, l), ls)
      ensures IsRun(s, [l] + ls) && After(s, [l] + ls) == After(step(s, l), ls)
    {
      assert ([l] + ls)[1..] == ls;
    }

    /** One more step at the end of a run. */
    lemma {:induction false} Snoc(s: S, ls: seq<L>, l: L)
      requires IsRun(s, ls) && enabled(After(s, ls), l)
      ensures IsRun(s, ls + [l]) && After(s, ls + [l]) == step(After(s, ls), l)
      decreases |ls|
    {
      if |ls| == 0 {
        assert (ls + [l])[1..] == [];
      } else {
        Snoc(step(s, ls[0]), ls[1..], l);
        assert (ls + [l])[1..] == ls[1..] + [l];
      }
    }

    /** The run from position k on, from the run after it. */
    lemma From(s: S, ls: seq<L>, k: nat)
      requires k < |ls| && enabled(s, ls[k]) && IsRun(step(s, ls[k]), ls[k + 1..])
      ensures IsRun(s, ls[k..]) && After(s, ls[k..]) == After(step(s, ls[k]), ls[k + 1..])
    {
      assert ls[k..][1..] == ls[k + 1..];
    }

    /** One run after another. */
    lemma {:induction false} Concat(s: S, a: seq<L>, b: seq<L>)
      requires IsRun(s, a) && IsRun(After(s, a), b)
      ensures IsRun(s, a + b) && After(s, a + b) == After(After(s, a), b)
      decreases |a|
    {
      if |a| == 0 {
        assert a + b == b;
      } else {
        Concat(step(s, a[0]), a[1..], b);
        assert (a + b)[1..] == a[1..] + b;
      }
    }
  }
}
