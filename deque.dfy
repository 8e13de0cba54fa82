/** The delivery queue is a deque fed at its left end (`appendleft`) and
    drained at its right end (`pop`). A sequence `d` stands for the deque with
    `d[0]` its left end; these functions show that the two ends together give
    first-in first-out order. */
module Deque {

  /** `d.appendleft(x)` for each `x` of `xs` in turn. */
  function AppendLeftAll<T>(d: seq<T>, xs: seq<T>): seq<T>
    decreases |xs|
  {
    if xs == [] then d else AppendLeftAll([xs[0]] + d, xs[1..])
  }

  /** The order in which repeated `d.pop()` hands out the elements: the right
      end first, i.e. the deque read backwards. */
  function PopOrder<T>(d: seq<T>): (r: seq<T>)
    ensures |r| == |d|
    ensures forall i :: 0 <= i < |d| ==> r[i] == d[|d| - 1 - i]
    decreases |d|
  {
    if d == [] then [] else [d[|d| - 1]] + PopOrder(d[..|d| - 1])
  }

  /** `appendleft` puts the new element last in pop order. */
  lemma AppendLeftLast<T>(d: seq<T>, x: T)
    ensures PopOrder([x] + d) == PopOrder(d) + [x]
  {
    var l, r := PopOrder([x] + d), PopOrder(d) + [x];
    assert |l| == |r|;
    forall i | 0 <= i < |l| ensures l[i] == r[i] {
      if i < |d| {
        assert ([x] + d)[|d| - i] == d[|d| - 1 - i];
      }
    }
  }

  /** `pop` hands out the first element in pop order and leaves the rest in
      their order. */
  lemma PopFirst<T>(d: seq<T>)
    requires d != []
    ensures PopOrder(d)[0] == d[|d| - 1]
    ensures PopOrder(d[..|d| - 1]) == PopOrder(d)[1..]
  {
    var l, r := PopOrder(d[..|d| - 1]), PopOrder(d)[1..];
    assert |l| == |r|;
    forall i | 0 <= i < |l| ensures l[i] == r[i] {
    }
  }

  /** FIFO: after enqueuing `xs` with `appendleft`, draining with `pop` hands
      out what was already queued and then `xs`, in enqueue order. */
  lemma {:induction false} DrainAfterAppends<T>(d: seq<T>, xs: seq<T>)
    ensures PopOrder(AppendLeftAll(d, xs)) == PopOrder(d) + xs
    decreases |xs|
  {
    if xs != [] {
      DrainAfterAppends([xs[0]] + d, xs[1..]);
      AppendLeftLast(d, xs[0]);
      assert [xs[0]] + xs[1..] == xs;
    }
  }
}
