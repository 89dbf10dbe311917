/** Concatenating what a function yields for each element of a sequence. */
module Seqs {

  /** `f(xs[0]) + f(xs[1]) + ...`, in the order of xs. */
  function ConcatMap<A, B>(f: A -> seq<B>, xs: seq<A>): seq<B>
  {
    if xs == [] then [] else f(xs[0]) + ConcatMap(f, xs[1..])
  }

  /** Mapping a concatenation is concatenating the two mapped parts. */
  lemma {:induction false} ConcatMapAppend<A, B>(f: A -> seq<B>, xs: seq<A>, ys: seq<A>)
    ensures ConcatMap(f, xs + ys) == ConcatMap(f, xs) + ConcatMap(f, ys)
  {
    if xs == [] {
      assert xs + ys == ys;
    } else {
      assert (xs + ys)[0] == xs[0];
      assert (xs + ys)[1..] == xs[1..] + ys;
      ConcatMapAppend(f, xs[1..], ys);
    }
  }

  /** An element in context contributes its own part between the others. */
  lemma ConcatMapSplit<A, B>(f: A -> seq<B>, xs: seq<A>, x: A, ys: seq<A>)
    ensures ConcatMap(f, xs + [x] + ys) == ConcatMap(f, xs) + f(x) + ConcatMap(f, ys)
  {
    var rest := [x] + ys;
    assert rest[0] == x && rest[1..] == ys;
    assert xs + [x] + ys == xs + rest;
    ConcatMapAppend(f, xs, rest);
  }

  /** One more element at the back adds its part at the back. */
  lemma ConcatMapSnoc<A, B>(f: A -> seq<B>, xs: seq<A>, x: A)
    ensures ConcatMap(f, xs + [x]) == ConcatMap(f, xs) + f(x)
  {
    ConcatMapAppend(f, xs, [x]);
    assert ConcatMap(f, [x]) == f(x) + ConcatMap(f, []);
  }
}
