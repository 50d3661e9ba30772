/** The selection the analyser performs twice, `xs.reduce((a, b) => f(a) > f(b) ? a : b)`:
    a left fold that replaces the accumulator unless it is strictly better, so on a tie
    the later element wins. */
module Reduce {

  function ReduceBest<T>(xs: seq<T>, f: T -> real): T
    requires |xs| > 0
  {
    if |xs| == 1 then xs[0]
    else
      var a := ReduceBest(xs[..|xs| - 1], f);
      var b := xs[|xs| - 1];
      if f(a) > f(b) then a else b
  }

  /** The fold returns the element at the LAST index whose score is maximal: no element
      scores higher, and every later element scores strictly lower. */
  lemma {:induction false} ReduceBestIsLastMaximum<T>(xs: seq<T>, f: T -> real) returns (k: nat)
    requires |xs| > 0
    ensures k < |xs| && ReduceBest(xs, f) == xs[k]
    ensures forall j | 0 <= j < |xs| :: f(xs[j]) <= f(xs[k])
    ensures forall j | k < j < |xs| :: f(xs[j]) < f(xs[k])
  {
    if |xs| == 1 {
      k := 0;
    } else {
      var init := xs[..|xs| - 1];
      var k' := ReduceBestIsLastMaximum(init, f);
      assert forall j | 0 <= j < |init| :: xs[j] == init[j];
      if f(init[k']) > f(xs[|xs| - 1]) {
        k := k';
      } else {
        k := |xs| - 1;
      }
    }
  }
}
