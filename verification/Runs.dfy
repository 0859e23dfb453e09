/** Runs of a transition system and the induction over them. */
module Runs {

  ghost predicate StepAt<W(!new)>(next: (W, W) -> bool, tr: seq<W>, i: nat)
    requires i + 1 < |tr|
  {
    next(tr[i], tr[i + 1])
  }

  ghost predicate IsRun<W(!new)>(start: W -> bool, next: (W, W) -> bool, tr: seq<W>) {
    |tr| > 0 && start(tr[0]) && forall i: nat :: i + 1 < |tr| ==> StepAt(next, tr, i)
  }

  ghost predicate Invariant<W(!new)>(start: W -> bool, next: (W, W) -> bool, inv: W -> bool) {
    && (forall w :: start(w) ==> inv(w))
    && (forall w, w' :: inv(w) && next(w, w') ==> inv(w'))
  }

  /** What the start satisfies and every step keeps holds all along a run. */
  lemma {:induction false} RunKeeps<W(!new)>(start: W -> bool, next: (W, W) -> bool, inv: W -> bool, tr: seq<W>, i: nat)
    requires IsRun(start, next, tr) && Invariant(start, next, inv) && i < |tr|
    ensures inv(tr[i])
  {
    if i > 0 {
      RunKeeps(start, next, inv, tr, i - 1);
      assert StepAt(next, tr, i - 1);
    }
  }

  lemma RunGrows<W(!new)>(start: W -> bool, next: (W, W) -> bool, tr: seq<W>, w: W)
    requires IsRun(start, next, tr) && next(tr[|tr| - 1], w)
    ensures IsRun(start, next, tr + [w])
  {
    forall i: nat | i + 1 < |tr + [w]| ensures StepAt(next, tr + [w], i) {
      if i + 1 < |tr| {
        assert StepAt(next, tr, i);
      }
    }
  }
}
