/** The stages `StatefulOperationsTrait` composes from the others:
    `filterNot`, a filter that keeps the elements its predicate rejects, and
    `minus`, a `filterNot` by membership in a materialised list. */
module Composing {
  import opened Outcomes
  import opened Filtering
  import opened OnceOnly
  import opened Sources

  /** The constant `filterNot` passes as `sendWhen`; `FilteringSequence`
      declares no constant of that name. */
  const SendWhenFalse: string := "FilteringSequence::SEND_WHEN_FALSE"

  /** `filterNot(predicate)` as written: evaluating the undeclared class
      constant throws before any stage is built. */
  function FilterNotAsWritten<T>(s: seq<T>, pred: (T, int) -> bool): (r: Result<seq<T>>)
    ensures r.Err? && r.error.UndefinedConstant?
  {
    Err(UndefinedConstant(SendWhenFalse))
  }

  /** `filterNot(predicate)` as intended: a `FilteringSequence` with
      `sendWhen` false. It keeps what `filter` drops, so the two lengths add
      up to the input's. */
  function FilterNot<T>(s: seq<T>, pred: (T, int) -> bool): (r: seq<T>)
    ensures |r| + |Filtered(s, pred, true)| == |s|
  {
    FilterAndFilterNotPartition(s, pred);
    Filtered(s, pred, false)
  }

  /** Every element `filterNot` keeps was rejected at its own position, and
      every rejected element is kept. */
  lemma FilterNotKeepsRejected<T>(s: seq<T>, pred: (T, int) -> bool, x: T)
    ensures x in FilterNot(s, pred) <==> exists p :: 0 <= p < |s| && s[p] == x && !pred(s[p], p)
  {
    FilteredMembership(s, x, pred, false);
  }

  /** `filterNot` as written never yields the intended elements, for any input. */
  lemma FilterNotAsWrittenFails<T>(s: seq<T>, pred: (T, int) -> bool)
    ensures FilterNotAsWritten(s, pred) != Ok(FilterNot(s, pred))
  {
  }

  /** The predicate `minus` hands to `filterNot`: `in_array($element, $other)`. */
  function InOther<T(==)>(other: seq<T>): (T, int) -> bool
  {
    (x: T, i: int) => x in other
  }

  /** `minus(elements)` as intended: the elements of `s` that do not occur in
      `other`, in their order. */
  function Minus<T(==)>(s: seq<T>, other: seq<T>): (r: seq<T>)
    ensures |r| <= |s|
  {
    FilterNot(s, InOther(other))
  }

  /** An element survives `minus` iff it is in `s` and not in `other`. */
  lemma MinusMembership<T>(s: seq<T>, other: seq<T>, x: T)
    ensures x in Minus(s, other) <==> x in s && x !in other
  {
    FilterNotKeepsRejected(s, InOther(other), x);
    if x in s && x !in other {
      var p :| 0 <= p < |s| && s[p] == x;
      assert !InOther(other)(s[p], p);
    }
  }

  /** Removing nothing keeps everything; removing everything leaves nothing. */
  lemma {:induction false} MinusExtremes<T>(s: seq<T>)
    ensures Minus(s, []) == s
    ensures Minus(s, s) == []
  {
    KeepAll(s);
    DropAll(s, s);
  }

  lemma {:induction false} KeepAll<T>(s: seq<T>)
    ensures Filtered(s, InOther([]), false) == s
  {
    if s != [] {
      KeepAll(s[..|s| - 1]);
      assert !InOther([])(s[|s| - 1], |s| - 1);
    }
  }

  lemma {:induction false} DropAll<T>(s: seq<T>, all: seq<T>)
    requires forall x :: x in s ==> x in all
    ensures Filtered(s, InOther(all), false) == []
  {
    if s != [] {
      DropAll(s[..|s| - 1], all);
      assert InOther(all)(s[|s| - 1], |s| - 1);
    }
  }

  /** The `$elements` handed to `minus`: an array; an IteratorAggregate (a
      Sequence, say), which `iterator_to_array` asks for a fresh iterator on
      every run of the generator and which here gives `items` each time; or an
      Iterator, which every run of the generator drains again. */
  datatype Elements<T> =
    | ArrayOf(items: seq<T>)
    | AggregateOf(items: seq<T>)
    | IteratorOf(source: SourceIterator<T>)

  /** `minus(elements)`: a generating sequence whose `getIterator` runs the
      `filterNot` above, constrained to one iteration only when `elements` is
      an Iterator (an IteratorAggregate is not one), since that Iterator may be
      drained only once. With `fixed` false the generator runs `filterNot` as
      written. */
  method MinusStage<T(==)>(s: seq<T>, elements: Elements<T>, fixed: bool) returns (r: SequenceRef<T>)
    ensures elements.ArrayOf? || elements.AggregateOf? ==> r == Plain(Generated(s, elements.items, fixed))
    ensures elements.IteratorOf? ==>
              r.Once? && fresh(r.constrained)
              && r.constrained.previous == Some(Drains(elements.source, AfterDrain(s, fixed)))
  {
    if elements.IteratorOf? {
      r := ConstrainOnce(Plain(Drains(elements.source, AfterDrain(s, fixed))));
    } else {
      r := Plain(Generated(s, elements.items, fixed));
    }
  }

  /** The rest of the generator of `minus` once `$elements` is drained. */
  function AfterDrain<T(==)>(s: seq<T>, fixed: bool): seq<T> -> Result<seq<T>>
  {
    (other: seq<T>) => var u := Generated(s, other, fixed); if u.Yields? then Ok(u.elements) else Err(u.error)
  }

  /** What the generator of `minus` yields or throws. */
  function Generated<T(==)>(s: seq<T>, other: seq<T>, fixed: bool): (u: Upstream<T>)
    ensures fixed ==> u.Yields? && forall x :: x in u.elements ==> x in s && x !in other
    ensures !fixed ==> u == Raises(UndefinedConstant(SendWhenFalse))
  {
    if fixed then
      var r := Minus(s, other);
      assert forall x :: x in r ==> x in s && x !in other by {
        forall x | x in r
          ensures x in s && x !in other
        {
          MinusMembership(s, other, x);
        }
      }
      Yields(r)
    else
      var attempt := FilterNotAsWritten(s, InOther(other));
      Raises(attempt.error)
  }

  /** `minus` of a fresh Iterator, iterated twice: the difference, then the
      already-iterated error, whether or not the Iterator can be rewound. */
  method MinusIteratorTwice<T(==)>(s: seq<T>, items: seq<T>, restartable: bool)
    returns (first: Result<seq<T>>, second: Result<seq<T>>)
    ensures first == Ok(Minus(s, items))
    ensures second.Err? && second.error.AlreadyIterated?
  {
    var source := new SourceIterator(items, restartable);
    var r := MinusStage(s, IteratorOf(source), true);
    first := r.constrained.GetIterator();
    second := r.constrained.GetIterator();
  }

  /** `minus` of a fresh Iterator as written: the first iteration drains the
      Iterator and then fails on the undeclared constant, which does not use
      the sequence up. The second iteration drains it again: an
      `ArrayIterator` fails the same way, a Generator cannot be rewound. */
  method MinusIteratorAsWritten<T(==)>(s: seq<T>, items: seq<T>, restartable: bool)
    returns (first: Result<seq<T>>, second: Result<seq<T>>)
    ensures first == Err(UndefinedConstant(SendWhenFalse))
    ensures second == if restartable || items == [] then first else Err(NotRewindable)
  {
    var source := new SourceIterator(items, restartable);
    var r := MinusStage(s, IteratorOf(source), false);
    first := r.constrained.GetIterator();
    second := r.constrained.GetIterator();
  }
}
