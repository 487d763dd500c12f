/** Runs of a state machine given by a partial step function. */
module Runs {
  import opened Basics

  /** `w'` is reached from `w` by taking `steps` in order, each of them enabled. */
  ghost predicate Reaches<W, S>(next: (W, S) -> Option<W>, w: W, steps: seq<S>, w': W)
    decreases |steps|
  {
    if steps == [] then w' == w
    else next(w, steps[0]).Some? && Reaches(next, next(w, steps[0]).value, steps[1..], w')
  }

  /** What every step keeps, every run keeps. */
  lemma {:induction false} Preserved<W(!new), S(!new)>(
    next: (W, S) -> Option<W>, inv: W -> bool, w: W, steps: seq<S>, w': W)
    requires inv(w) && Reaches(next, w, steps, w')
    requires forall v, s :: inv(v) && next(v, s).Some? ==> inv(next(v, s).value)
    ensures inv(w')
    decreases |steps|
  {
    if steps != [] {
      Preserved(next, inv, next(w, steps[0]).value, steps[1..], w');
    }
  }

  lemma {:induction false} Chain<W, S>(next: (W, S) -> Option<W>, w: W, s1: seq<S>, w1: W, s2: seq<S>, w2: W)
    requires Reaches(next, w, s1, w1) && Reaches(next, w1, s2, w2)
    ensures Reaches(next, w, s1 + s2, w2)
    decreases |s1|
  {
    if s1 == [] {
      assert s1 + s2 == s2;
    } else {
      Chain(next, next(w, s1[0]).value, s1[1..], w1, s2, w2);
      assert (s1 + s2)[1..] == s1[1..] + s2;
    }
  }

  /** Appends one step to a run. */
  lemma Extend<W, S>(next: (W, S) -> Option<W>, w: W, steps: seq<S>, w1: W, step: S, w2: W)
    requires Reaches(next, w, steps, w1) && next(w1, step) == Some(w2)
    ensures Reaches(next, w, steps + [step], w2)
  {
    assert Reaches(next, w2, [], w2);
    assert Reaches(next, w1, [step], w2);
    Chain(next, w, steps, w1, [step], w2);
  }
}
