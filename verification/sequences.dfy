/** `xs.map(f).filter(keep)` over sequences, the shape of the loader's
    pipeline, with the facts about it that do not depend on what `f`
    computes. */
module Sequences {

  /** The images under `f` that `keep` accepts, in the order of `xs`. */
  function FilterMap<A, B>(xs: seq<A>, f: A -> B, keep: B -> bool): (out: seq<B>)
    ensures |out| <= |xs|
    ensures forall k :: 0 <= k < |out| ==> keep(out[k])
  {
    if |xs| == 0 then []
    else
      var y := f(xs[|xs| - 1]);
      FilterMap(xs[..|xs| - 1], f, keep) + (if keep(y) then [y] else [])
  }

  /** The positions of `xs` whose image is kept, in increasing order. */
  function KeptIndices<A, B>(xs: seq<A>, f: A -> B, keep: B -> bool): seq<nat>
  {
    if |xs| == 0 then []
    else
      KeptIndices(xs[..|xs| - 1], f, keep)
      + (if keep(f(xs[|xs| - 1])) then [|xs| - 1] else [])
  }

  /** The result holds exactly the images of the kept positions, each
      built from its own element, in the elements' order. */
  lemma {:induction false} KeptInOrder<A, B>(xs: seq<A>, f: A -> B, keep: B -> bool)
    ensures |KeptIndices(xs, f, keep)| == |FilterMap(xs, f, keep)|
    ensures forall k :: 0 <= k < |KeptIndices(xs, f, keep)| ==>
      KeptIndices(xs, f, keep)[k] < |xs|
      && FilterMap(xs, f, keep)[k] == f(xs[KeptIndices(xs, f, keep)[k]])
    ensures forall k, l :: 0 <= k < l < |KeptIndices(xs, f, keep)| ==>
      KeptIndices(xs, f, keep)[k] < KeptIndices(xs, f, keep)[l]
    ensures forall j :: 0 <= j < |xs| ==>
      (j in KeptIndices(xs, f, keep) <==> keep(f(xs[j])))
  {
    if |xs| > 0 {
      var n := |xs| - 1;
      var front := xs[..n];
      KeptInOrder(front, f, keep);
      assert forall j :: 0 <= j < n ==> front[j] == xs[j];
      var idx := KeptIndices(xs, f, keep);
      var frontIdx := KeptIndices(front, f, keep);
      assert forall k :: 0 <= k < |frontIdx| ==> idx[k] == frontIdx[k];
      assert n !in frontIdx;
    }
  }

  /** Elements appended after `xs` add their own kept images at the end. */
  lemma {:induction false} FilterMapAppend<A, B>(xs: seq<A>, ys: seq<A>, f: A -> B, keep: B -> bool)
    ensures FilterMap(xs + ys, f, keep) == FilterMap(xs, f, keep) + FilterMap(ys, f, keep)
  {
    if |ys| > 0 {
      var n := |ys| - 1;
      assert (xs + ys)[..|xs + ys| - 1] == xs + ys[..n];
      assert (xs + ys)[|xs + ys| - 1] == ys[n];
      FilterMapAppend(xs, ys[..n], f, keep);
    } else {
      assert xs + ys == xs;
    }
  }

  /** `xs.map(f)` followed by `.filter(keep)`, as two loops. */
  method MapThenFilter<A, B>(xs: seq<A>, f: A -> B, keep: B -> bool) returns (out: seq<B>)
    ensures out == FilterMap(xs, f, keep)
  {
    var mapped: seq<B> := [];
    var i := 0;
    while i < |xs|
      invariant 0 <= i <= |xs|
      invariant |mapped| == i
      invariant forall k :: 0 <= k < i ==> mapped[k] == f(xs[k])
    {
      mapped := mapped + [f(xs[i])];
      i := i + 1;
    }
    out := [];
    var j := 0;
    while j < |mapped|
      invariant 0 <= j <= |mapped|
      invariant out == FilterMap(xs[..j], f, keep)
    {
      assert xs[..j + 1][..j] == xs[..j];
      if keep(mapped[j]) {
        out := out + [mapped[j]];
      }
      j := j + 1;
    }
    assert xs[..|xs|] == xs;
  }
}
