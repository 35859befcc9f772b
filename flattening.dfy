/** `FlatteningSequence` (`flatten` and `flatMap`): each upstream element,
    passed through the optional transform with its position, must be
    iterable; the output is the concatenation of their items. */
module Flattening {
  import opened Outcomes
  import opened Transforming
  import opened Values

  /** The value the flattening loop looks at for upstream position `i`. */
  function Outer(s: seq<Value>, transform: Option<(Value, int) -> Value>, i: nat): Value
    requires i < |s|
  {
    if transform.Some? then transform.value(s[i], i) else s[i]
  }

  /** The reference definition: everything up to the last element, then
      the last element's items; the first non-iterable value stops the
      iteration with an InvalidArgumentException naming its type. */
  function Flattened(s: seq<Value>, transform: Option<(Value, int) -> Value>): (r: Result<seq<Value>>)
    ensures r.Err? ==> r.error.InvalidArgument?
  {
    if s == [] then Ok([])
    else
      var init := Flattened(s[..|s| - 1], transform);
      var last := Outer(s, transform, |s| - 1);
      if init.Err? then init
      else if !last.Items? then Err(InvalidArgument("Expected a iterable but got " + TypeName(last)))
      else Ok(init.value + last.elements)
  }

  /** The error case: flattening fails exactly when some value is not
      iterable, and then the message names the type of the first such value. */
  lemma {:induction false} FlattenedFails(s: seq<Value>, transform: Option<(Value, int) -> Value>, j: nat)
    requires j < |s| && !Outer(s, transform, j).Items?
    requires forall i :: 0 <= i < j ==> Outer(s, transform, i).Items?
    ensures Flattened(s, transform)
         == Err(InvalidArgument("Expected a iterable but got " + TypeName(Outer(s, transform, j))))
    decreases |s|
  {
    var init := s[..|s| - 1];
    if j < |s| - 1 {
      forall i | 0 <= i <= j
        ensures Outer(init, transform, i) == Outer(s, transform, i)
      {
      }
      FlattenedFails(init, transform, j);
    } else {
      forall i | 0 <= i < |init|
        ensures Outer(init, transform, i) == Outer(s, transform, i)
      {
      }
      FlattenedSucceeds(init, transform);
    }
  }

  /** The success case: when every value is iterable the output is their
      items concatenated, so its length is the sum of their lengths. */
  lemma {:induction false} FlattenedSucceeds(s: seq<Value>, transform: Option<(Value, int) -> Value>)
    requires forall i :: 0 <= i < |s| ==> Outer(s, transform, i).Items?
    ensures Flattened(s, transform) == Ok(Concat(MapIndexed(s, (x: Value, i: int) => Elements(s, transform, i))))
  {
    if s != [] {
      var init := s[..|s| - 1];
      forall i | 0 <= i < |init|
        ensures Outer(init, transform, i) == Outer(s, transform, i)
      {
      }
      FlattenedSucceeds(init, transform);
      var parts := MapIndexed(s, (x: Value, i: int) => Elements(s, transform, i));
      var initParts := MapIndexed(init, (x: Value, i: int) => Elements(init, transform, i));
      assert parts[..|parts| - 1] == initParts;
      assert parts == initParts + [Outer(s, transform, |s| - 1).elements];
      ConcatSnoc(initParts, Outer(s, transform, |s| - 1).elements);
    }
  }

  /** The items of the value at position `i`, or nothing when it is not iterable. */
  function Elements(s: seq<Value>, transform: Option<(Value, int) -> Value>, i: int): seq<Value>
  {
    if 0 <= i < |s| && Outer(s, transform, i).Items? then Outer(s, transform, i).elements else []
  }

  /** The lists one after the other. */
  function Concat<T>(parts: seq<seq<T>>): seq<T>
  {
    if parts == [] then [] else parts[0] + Concat(parts[1..])
  }

  lemma {:induction false} ConcatSnoc<T>(parts: seq<seq<T>>, last: seq<T>)
    ensures Concat(parts + [last]) == Concat(parts) + last
  {
    if parts != [] {
      assert (parts + [last])[1..] == parts[1..] + [last];
      ConcatSnoc(parts[1..], last);
    }
  }

  /** `flatMap(f)` is `map(f)` followed by `flatten()`. */
  lemma {:induction false} FlatMapIsMapThenFlatten(s: seq<Value>, f: (Value, int) -> Value)
    ensures Flattened(s, Some(f)) == Flattened(MapIndexed(s, f), None)
  {
    if s != [] {
      var init := s[..|s| - 1];
      FlatMapIsMapThenFlatten(init, f);
      assert MapIndexed(s, f)[..|s| - 1] == MapIndexed(init, f);
    }
  }

  /** The class `getIterator` instantiates: the `use` at the top of the file
      names a namespace that declares no `DeferredIterator`. */
  const MisplacedDeferredIterator: string := "BradynPoulsen\\Sequences\\Operations\\DeferredIterator"

  class FlatteningSequence {
    const previous: seq<Value>
    var transform: Option<(Value, int) -> Value>

    /** `flatten()` passes no transform, `flatMap(f)` passes `f`. */
    constructor (previous: seq<Value>, transform: Option<(Value, int) -> Value>)
      ensures this.previous == previous && this.transform == transform
    {
      this.previous := previous;
      this.transform := transform;
    }

    /** `getIterator()` as written: `new DeferredIterator(...)` resolves,
        through the import, to a class that does not exist, so the call
        raises before the generator is built. */
    method GetIteratorAsWritten() returns (r: Result<seq<Value>>)
      ensures r == Err(ClassNotFound(MisplacedDeferredIterator))
    {
      return Err(ClassNotFound(MisplacedDeferredIterator));
    }

    /** The generator body of `getIterator`, with `DeferredIterator` resolved
        to the one the library declares. */
    method GetIterator() returns (r: Result<seq<Value>>)
      ensures r == Flattened(previous, transform)
    {
      var out: seq<Value> := [];
      var index := 0;
      while index < |previous|
        invariant 0 <= index <= |previous|
        invariant Flattened(previous[..index], transform) == Ok(out)
      {
        var element := if transform.Some? then transform.value(previous[index], index) else previous[index];
        assert previous[..index + 1][..index] == previous[..index];
        assert Outer(previous[..index + 1], transform, index) == element;
        if !element.Items? {
          r := Err(InvalidArgument("Expected a iterable but got " + TypeName(element)));
          FailurePropagates(previous, transform, index + 1);
          return;
        }
        out := out + element.elements;
        index := index + 1;
      }
      assert previous[..index] == previous;
      r := Ok(out);
    }

    /** `map(f)` as written: with no transform yet, `f` becomes the transform
        applied to the upstream elements before flattening, and the same
        sequence is returned; otherwise an ordinary mapping stage is built
        over this one. */
    method Map(f: (Value, int) -> Value) returns (fused: bool)
      modifies this`transform
      ensures fused <==> old(transform).None?
      ensures fused ==> transform == Some(f)
      ensures !fused ==> transform == old(transform)
    {
      if transform.None? {
        transform := Some(f);
        return true;
      }
      return false;
    }

    /** `map(f)` as the `map` contract describes it: a mapping stage over the
        flattened output, whatever transform this sequence has. */
    method MapCorrected(f: (Value, int) -> Value) returns (r: Result<seq<Value>>)
      ensures Flattened(previous, transform).Err? ==> r == Flattened(previous, transform)
      ensures Flattened(previous, transform).Ok? ==>
                r.Ok? && |r.value| == |Flattened(previous, transform).value|
                && forall i :: 0 <= i < |r.value| ==>
                     r.value[i] == f(Flattened(previous, transform).value[i], i)
    {
      var flat := GetIterator();
      if flat.Err? {
        return flat;
      }
      var mapped := Transforming.Map(flat.value, f);
      return Ok(mapped);
    }
  }

  /** Once a prefix fails, every longer prefix fails the same way. */
  lemma {:induction false} FailurePropagates(s: seq<Value>, transform: Option<(Value, int) -> Value>, n: nat)
    requires n <= |s| && Flattened(s[..n], transform).Err?
    ensures Flattened(s, transform) == Flattened(s[..n], transform)
    decreases |s| - n
  {
    if n < |s| {
      assert s[..n + 1][..n] == s[..n];
      FailurePropagates(s, transform, n + 1);
    } else {
      assert s[..n] == s;
    }
  }

  /** A single upstream value flattens to its own items. */
  lemma FlattenedSingle(x: Value, transform: Option<(Value, int) -> Value>)
    requires Outer([x], transform, 0).Items?
    ensures Flattened([x], transform) == Ok(Outer([x], transform, 0).elements)
  {
    var s := [x];
    assert s[..|s| - 1] == [];
    assert Flattened(s[..|s| - 1], transform) == Ok([]);
    var e := Outer(s, transform, |s| - 1).elements;
    assert Flattened(s, transform) == Ok([] + e);
    assert [] + e == e;
  }

  /** `flatten()` over `[[1, 2]]`: as written the import makes it raise;
      with `DeferredIterator` resolved it yields `[1, 2]`. */
  method FlattenAsWritten() returns (asWritten: Result<seq<Value>>, corrected: Result<seq<Value>>)
    ensures asWritten == Err(ClassNotFound(MisplacedDeferredIterator))
    ensures corrected == Ok([Integer(1), Integer(2)])
  {
    var upstream := [Items([Integer(1), Integer(2)])];
    var sequence := new FlatteningSequence(upstream, None);
    asWritten := sequence.GetIteratorAsWritten();
    corrected := sequence.GetIterator();
    FlattenedSingle(upstream[0], None);
  }

  /** `flatten().map(x => [x])` over `[[1, 2]]`: as written the map runs
      before flattening and the result is `[[1, 2]]`; mapping the flattened
      output gives `[[1], [2]]`. */
  method FlattenThenMap() returns (asWritten: Result<seq<Value>>, corrected: Result<seq<Value>>)
    ensures asWritten == Ok([Items([Integer(1), Integer(2)])])
    ensures corrected == Ok([Items([Integer(1)]), Items([Integer(2)])])
  {
    var wrap := (v: Value, i: int) => Items([v]);
    var upstream := [Items([Integer(1), Integer(2)])];
    var fusedSequence := new FlatteningSequence(upstream, None);
    var fused := fusedSequence.Map(wrap);
    asWritten := fusedSequence.GetIterator();
    FlattenedSingle(upstream[0], Some(wrap));
    var plain := new FlatteningSequence(upstream, None);
    corrected := plain.MapCorrected(wrap);
    FlattenedSingle(upstream[0], None);
    assert [upstream[0]] == upstream;
    var flat := Flattened(upstream, None).value;
    assert flat == [Integer(1), Integer(2)];
    assert corrected.Ok? && |corrected.value| == 2;
    assert corrected.value[0] == wrap(flat[0], 0) == Items([Integer(1)]);
    assert corrected.value[1] == wrap(flat[1], 1) == Items([Integer(2)]);
    assert corrected.value == [Items([Integer(1)]), Items([Integer(2)])];
  }
}
