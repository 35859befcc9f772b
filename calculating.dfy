/** `CalculatingOperations`: `sum`, `sumBy`, `fold` and `reduce`. Numbers
    are PHP integers; a float element is not part of this model. */
module Calculating {
  import opened Outcomes
  import opened Sources
  import opened Cursors
  import opened Iterations
  import opened Values
  import opened Transforming

  const ElementMessage: string := "Element must be an integer or float"
  const SelectorMessage: string := "Selector must return an integer or float"

  /** Every value passes `validateNumber`. */
  predicate AllNumbers(vs: seq<Value>)
  {
    forall i :: 0 <= i < |vs| ==> vs[i].Integer?
  }

  /** The arithmetic sum of a list of integers. */
  function Total(vs: seq<Value>): int
    requires AllNumbers(vs)
  {
    if vs == [] then 0 else Total(vs[..|vs| - 1]) + vs[|vs| - 1].n
  }

  /** Totals add up over a concatenation. */
  lemma {:induction false} TotalAppend(a: seq<Value>, b: seq<Value>)
    requires AllNumbers(a) && AllNumbers(b)
    ensures AllNumbers(a + b) && Total(a + b) == Total(a) + Total(b)
  {
    assert AllNumbers(a + b) by {
      forall i | 0 <= i < |a + b|
        ensures (a + b)[i].Integer?
      {
        if i >= |a| {
          assert (a + b)[i] == b[i - |a|];
        }
      }
    }
    if b != [] {
      var b0 := b[..|b| - 1];
      assert AllNumbers(b0) by {
        forall i | 0 <= i < |b0|
          ensures b0[i].Integer?
        {
          assert b0[i] == b[i];
        }
      }
      TotalAppend(a, b0);
      assert (a + b)[..|a + b| - 1] == a + b0;
    } else {
      assert a + b == a;
    }
  }

  /** The loop of `sum` and `sumBy`: add each value after validating it,
      throwing on the first value that is not a number. */
  method SumValues(vs: seq<Value>, message: string) returns (r: Result<int>)
    ensures r.Err? <==> !AllNumbers(vs)
    ensures r.Err? ==> r.error == InvalidArgument(message)
    ensures r.Ok? ==> AllNumbers(vs) && r.value == Total(vs)
  {
    var sum := 0;
    var i := 0;
    while i < |vs|
      invariant 0 <= i <= |vs| && AllNumbers(vs[..i]) && sum == Total(vs[..i])
    {
      if !vs[i].Integer? {
        return Err(InvalidArgument(message));
      }
      assert vs[..i + 1][..i] == vs[..i];
      sum := sum + vs[i].n;
      i := i + 1;
    }
    assert vs[..i] == vs;
    return Ok(sum);
  }

  /** `sum()` */
  method Sum(s: seq<Value>) returns (r: Result<int>)
    ensures r.Err? <==> exists i :: 0 <= i < |s| && !s[i].Integer?
    ensures r.Err? ==> r.error == InvalidArgument(ElementMessage)
    ensures r.Ok? ==> AllNumbers(s) && r.value == Total(s)
  {
    r := SumValues(s, ElementMessage);
  }

  /** `sumBy(selector)`: `sum` over the selected values. */
  method SumBy<T>(s: seq<T>, selector: T -> Value) returns (r: Result<int>)
    ensures var vs := MapIndexed(s, (x: T, i: int) => selector(x));
            (r.Err? <==> exists i :: 0 <= i < |s| && !selector(s[i]).Integer?)
            && (r.Err? ==> r.error == InvalidArgument(SelectorMessage))
            && (r.Ok? ==> AllNumbers(vs) && r.value == Total(vs))
  {
    var vs := Transforming.Map(s, (x: T, i: int) => selector(x));
    r := SumValues(vs, SelectorMessage);
  }

  /** The accumulator after folding `s` into `initial`, the element at
      position `j` of `s` being passed the index `base + j`. */
  function FoldFrom<T, R>(s: seq<T>, initial: R, operation: (R, T, int) -> R, base: int): R
  {
    if s == [] then initial
    else operation(FoldFrom(s[..|s| - 1], initial, operation, base), s[|s| - 1], base + |s| - 1)
  }

  /** Folding a concatenation folds the second part into the first part's
      result, its indexes continuing where the first part's stopped. */
  lemma {:induction false} FoldConcat<T, R>(a: seq<T>, b: seq<T>, initial: R, operation: (R, T, int) -> R, base: int)
    ensures FoldFrom(a + b, initial, operation, base)
         == FoldFrom(b, FoldFrom(a, initial, operation, base), operation, base + |a|)
  {
    if b == [] {
      assert a + b == a;
    } else {
      FoldConcat(a, b[..|b| - 1], initial, operation, base);
      assert (a + b)[..|a + b| - 1] == a + b[..|b| - 1];
    }
  }

  /** Summing integers is folding them with `+` from zero. */
  lemma {:induction false} TotalIsFold(vs: seq<Value>)
    requires AllNumbers(vs)
    ensures Total(vs) == FoldFrom(vs, 0, (acc: int, v: Value, i: int) => if v.Integer? then acc + v.n else acc, 0)
  {
    if vs != [] {
      var init := vs[..|vs| - 1];
      assert AllNumbers(init) by {
        forall i | 0 <= i < |init|
          ensures init[i].Integer?
        {
          assert init[i] == vs[i];
        }
      }
      TotalIsFold(init);
    }
  }

  /** `fold(initial, operation)`: each element with its index. */
  method Fold<T, R>(s: seq<T>, initial: R, operation: (R, T, int) -> R) returns (r: R)
    ensures r == FoldFrom(s, initial, operation, 0)
  {
    r := initial;
    var index := 0;
    while index < |s|
      invariant 0 <= index <= |s| && r == FoldFrom(s[..index], initial, operation, 0)
    {
      assert s[..index + 1][..index] == s[..index];
      r := operation(r, s[index], index);
      index := index + 1;
    }
    assert s[..index] == s;
  }

  /** What `reduce` promises: an empty sequence is a length error; otherwise
      the first element seeds the accumulator and every later element is
      folded in with its index in the original sequence. */
  function Reduced<T>(s: seq<T>, operation: (T, T, int) -> T): Result<T>
  {
    if s == [] then Err(EmptySequence) else Ok(FoldFrom(s[1..], s[0], operation, 1))
  }

  /** Reducing a longer sequence folds the extra elements into the shorter
      one's result, with their original indexes. */
  lemma ReducedConcat<T>(a: seq<T>, b: seq<T>, operation: (T, T, int) -> T)
    requires a != []
    ensures Reduced(a + b, operation) == Ok(FoldFrom(b, Reduced(a, operation).value, operation, |a|))
  {
    assert (a + b)[1..] == a[1..] + b;
    FoldConcat(a[1..], b, a[0], operation, 1);
  }

  /** `reduce(operation)` as written: `hasNext`, `pluckNext` for the seed,
      then a `foreach` over the same cursor. The `foreach` rewinds the cursor
      first, and a cursor that has handed out an element refuses to rewind. */
  method ReduceAsWritten<T>(items: seq<T>, restartable: bool, operation: (T, T, int) -> T)
    returns (r: Result<T>)
    ensures items == [] ==> r == Err(EmptySequence)
    ensures items != [] ==> r == Err(NotRewindable)
  {
    var cursor, src := Open(items, restartable);
    var has := Probe(cursor, src, items, 0);
    if !has {
      return Err(EmptySequence);
    }
    var accumulated := Pluck(cursor, src, items, 0);
    var rest := ForEach(cursor);
    match rest {
      case Err(e) => r := Err(e);
      case Ok(tail) => r := Ok(FoldFrom(tail, accumulated, operation, 1));
    }
  }

  /** `reduce(operation)` with the seed plucked and the rest of the same
      cursor drained by `hasNext`/`pluckNext`, which need no rewind. */
  method ReduceCorrected<T>(items: seq<T>, restartable: bool, operation: (T, T, int) -> T)
    returns (r: Result<T>)
    ensures r == Reduced(items, operation)
  {
    var cursor, src := Open(items, restartable);
    var has := Probe(cursor, src, items, 0);
    if !has {
      return Err(EmptySequence);
    }
    var accumulated := Pluck(cursor, src, items, 0);
    var index := 1;
    while true
      invariant 1 <= index <= |items| && Reading(cursor, src, items, index)
      invariant accumulated == FoldFrom(items[1..index], items[0], operation, 1)
      modifies cursor.Repr
      decreases |items| - index
    {
      has := Probe(cursor, src, items, index);
      if !has {
        break;
      }
      var element := Pluck(cursor, src, items, index);
      FoldOneMore(items, index, operation);
      accumulated := operation(accumulated, element, index);
      index := index + 1;
    }
    assert items[1..index] == items[1..];
    return Ok(accumulated);
  }

  /** Folding one more element of the tail of `items` into the seed. */
  lemma FoldOneMore<T>(items: seq<T>, index: nat, operation: (T, T, int) -> T)
    requires 1 <= index < |items|
    ensures FoldFrom(items[1..index + 1], items[0], operation, 1)
         == operation(FoldFrom(items[1..index], items[0], operation, 1), items[index], index)
  {
    assert items[1..index + 1][..index - 1] == items[1..index];
  }

  /** `reduce` summing `[1, 2]`: the code as written fails where `3` is meant. */
  method ReduceOneTwo() returns (asWritten: Result<int>, corrected: Result<int>)
    ensures asWritten == Err(NotRewindable)
    ensures corrected == Ok(3)
  {
    var add := (acc: int, x: int, i: int) => acc + x;
    asWritten := ReduceAsWritten([1, 2], true, add);
    corrected := ReduceCorrected([1, 2], true, add);
    assert [1, 2][1..] == [2];
    assert [2][..0] == [];
  }
}
