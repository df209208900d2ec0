// Running a list of steps and keeping every state in between.

module Trails {
  // A run of steps over a list: the states in between, and what each step shows.
  ghost predicate Trail<S, X, O>(items: seq<X>, step: (S, X, int) -> S, show: (S, X) -> O, trail: seq<S>,
                                 shown: seq<O>) {
    && |trail| == |items| + 1 && |shown| == |items|
    && forall i | 0 <= i < |items| ::
         trail[i + 1] == step(trail[i], items[i], i) && shown[i] == show(trail[i], items[i])
  }

  function Fold<S, X>(s: S, items: seq<X>, step: (S, X, int) -> S): S {
    if items == [] then s else step(Fold(s, items[..|items| - 1], step), items[|items| - 1], |items| - 1)
  }

  function Shows<S, X, O>(s: S, items: seq<X>, step: (S, X, int) -> S, show: (S, X) -> O): seq<O> {
    if items == [] then []
    else
      var n := |items| - 1;
      Shows(s, items[..n], step, show) + [show(Fold(s, items[..n], step), items[n])]
  }

  lemma {:induction false} TrailOneMore<S, X, O>(items: seq<X>, step: (S, X, int) -> S, show: (S, X) -> O,
                                                 trail: seq<S>, shown: seq<O>, x: X)
    requires Trail(items, step, show, trail, shown)
    ensures var last := trail[|items|];
            Trail(items + [x], step, show, trail + [step(last, x, |items|)], shown + [show(last, x)])
  {
  }

  lemma {:induction false} TrailEnds<S, X, O>(items: seq<X>, step: (S, X, int) -> S, show: (S, X) -> O, trail: seq<S>,
                                              shown: seq<O>)
    requires Trail(items, step, show, trail, shown)
    ensures trail[|items|] == Fold(trail[0], items, step) && shown == Shows(trail[0], items, step, show)
  {
    if items != [] {
      var n := |items| - 1;
      TrailEnds(items[..n], step, show, trail[..|items|], shown[..n]);
      assert shown == shown[..n] + [shown[n]];
    }
  }
}
