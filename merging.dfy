/** `MergingSequence` (`plus`) and `DefaultingWhenEmptySequence` (`ifEmpty`). */
module Merging {
  import opened Outcomes
  import opened Sources
  import opened Cursors
  import opened Iterations

  /** `plus(additional)`: every upstream element, then every additional one. */
  function Merged<T>(upstream: seq<T>, additional: seq<T>): (r: seq<T>)
    ensures |r| == |upstream| + |additional|
    ensures r[..|upstream|] == upstream && r[|upstream|..] == additional
    ensures forall i, j :: 0 <= i < |upstream| <= j < |r| ==> r[i] in upstream && r[j] in additional
  {
    upstream + additional
  }

  /** Merging with nothing on either side changes nothing, and merging is
      associative, so `a.plus(b).plus(c)` and `a.plus(b.plus(c))` agree. */
  lemma MergedLaws<T>(a: seq<T>, b: seq<T>, c: seq<T>)
    ensures Merged(a, []) == a && Merged([], a) == a
    ensures Merged(Merged(a, b), c) == Merged(a, Merged(b, c))
  {
    assert Merged(a, []) == a;
    assert (a + b) + c == a + (b + c);
  }

  /** What the supplier of `ifEmpty` can hand back. */
  datatype Supplied<T> =
    | /** an Iterator: used as it is */
      IteratorValue(items: seq<T>)
    | /** an IteratorAggregate (every Sequence is one): its getIterator() is unwrapped in turn */
      AggregateValue(inner: Supplied<T>)
    | /** any other Traversable, named by its class */
      UnknownTraversable(className: string)

  /** `unwrapIterator`: follows aggregates down to an Iterator. */
  function Unwrap<T>(source: Supplied<T>): (r: Result<seq<T>>)
    ensures r.Ok? <==> Innermost(source).IteratorValue?
    ensures r.Ok? ==> r.value == Innermost(source).items
    ensures r.Err? ==>
              r.error == InvalidArgument("Could not extract Iterator from unknown Traversable type: "
                                         + Innermost(source).className)
  {
    match source
    case IteratorValue(items) => Ok(items)
    case AggregateValue(inner) => Unwrap(inner)
    case UnknownTraversable(className) =>
      Err(InvalidArgument("Could not extract Iterator from unknown Traversable type: " + className))
  }

  /** The value found below every aggregate. */
  function Innermost<T>(source: Supplied<T>): (u: Supplied<T>)
    ensures !u.AggregateValue?
  {
    if source.AggregateValue? then Innermost(source.inner) else source
  }

  /** `ifEmpty(supplier)`, run to the end by `foreach`: the upstream (an
      iterator over `items`) is converted to a cursor and asked `hasNext()`;
      when it has an element the cursor itself, first element already
      computed, is the result; otherwise the supplier is called and its
      value unwrapped. */
  method IfEmpty<T>(items: seq<T>, restartable: bool, fallback: Supplied<T>)
    returns (r: Result<seq<T>>, ghost supplierCalled: bool)
    ensures items != [] ==> r == Ok(items) && !supplierCalled
    ensures items == [] ==> r == Unwrap(fallback) && supplierCalled
  {
    var source := new SourceIterator(items, restartable);
    var converted := Convert(IteratorOf(source));
    var previous := converted.value;
    var has := previous.HasNext();
    if has.value {
      supplierCalled := false;
      r := ForEach(previous);
    } else {
      supplierCalled := true;
      r := Unwrap(fallback);
    }
  }
}
