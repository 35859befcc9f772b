/** `TransformingSequence` (`map`) and `onEach`, which is `map` with a
    transform that runs the action and hands the element back. */
module Transforming {

  /** The reference definition: the transform applied to every element and
      its position. */
  function MapIndexed<T, U>(s: seq<T>, transform: (T, int) -> U): (r: seq<U>)
    ensures |r| == |s|
    ensures forall i :: 0 <= i < |s| ==> r[i] == transform(s[i], i)
  {
    if s == [] then [] else MapIndexed(s[..|s| - 1], transform) + [transform(s[|s| - 1], |s| - 1)]
  }

  /** `map(transform)` iterated: the position counts from 0 on every iteration. */
  method Map<T, U>(s: seq<T>, transform: (T, int) -> U) returns (r: seq<U>)
    ensures r == MapIndexed(s, transform)
  {
    r := [];
    var index := 0;
    while index < |s|
      invariant 0 <= index <= |s| && |r| == index
      invariant forall i :: 0 <= i < index ==> r[i] == transform(s[i], i)
    {
      r := r + [transform(s[index], index)];
      index := index + 1;
    }
  }

  /** Two `map` stages in a row are one `map` with the composed transform:
      both see the same position. */
  lemma MapTwice<T, U, V>(s: seq<T>, f: (T, int) -> U, g: (U, int) -> V)
    ensures MapIndexed(MapIndexed(s, f), g) == MapIndexed(s, (x: T, i: int) => g(f(x, i), i))
  {
    var left := MapIndexed(MapIndexed(s, f), g);
    var right := MapIndexed(s, (x: T, i: int) => g(f(x, i), i));
    assert |left| == |right|;
    forall i | 0 <= i < |left|
      ensures left[i] == right[i]
    {
    }
  }

  /** `onEach(action)` iterated: a `map` whose transform performs the action
      on the element and passes the element on. `performed` records the
      action's calls: one per element, in the sequence's order. */
  method OnEach<T, E>(s: seq<T>, action: T -> E) returns (r: seq<T>, performed: seq<E>)
    ensures r == s
    ensures |performed| == |s| && forall i :: 0 <= i < |s| ==> performed[i] == action(s[i])
  {
    var traced := Map(s, (element: T, index: int) => (element, action(element)));
    r := Map(traced, (call: (T, E), index: int) => call.0);
    performed := Map(traced, (call: (T, E), index: int) => call.1);
  }
}
