/** The stages that keep a contiguous part of the input: `take`, `drop`,
    `takeWhile`, `dropWhile` and `SubSequence`. */
module Slicing {
  import opened Outcomes

  /** PHP's decimal rendering of an integer inside a string. */
  function Decimal(n: int): (r: string)
    ensures |r| >= 1
    ensures (r[0] == '-') <==> n < 0
    decreases if n < 0 then 1 - n else n
  {
    if n < 0 then "-" + Decimal(-n)
    else if n < 10 then [(('0' as int) + n) as char]
    else Decimal(n / 10) + [(('0' as int) + n % 10) as char]
  }

  /** The count check shared by the `TakeSequence` and `DropSequence` constructors. */
  function CheckCount(count: int): (o: Outcome)
    ensures o.Pass? <==> count > 0
    ensures o.Fail? ==> o.error == InvalidArgument("count must be greater than zero")
  {
    if count <= 0 then Fail(InvalidArgument("count must be greater than zero")) else Pass
  }

  /** `take(count)` iterated: the first `count` elements, or all of a shorter
      input. `pulls` is how many elements were fetched from upstream: the
      loop stops right after the last one it yields, without fetching the next. */
  method Take<T>(s: seq<T>, count: int) returns (r: Result<seq<T>>, pulls: nat)
    ensures r.Err? <==> count <= 0
    ensures r.Err? ==> r.error == CheckCount(count).error && pulls == 0
    ensures r.Ok? ==> r.value == s[..Min(count, |s|)] && pulls == Min(count, |s|)
  {
    var checked := CheckCount(count);
    if checked.Fail? {
      return Err(checked.error), 0;
    }
    var left := count;
    var taken: seq<T> := [];
    pulls := 0;
    while pulls < |s|
      invariant 0 <= pulls <= |s| && pulls <= count
      invariant taken == s[..pulls] && left == count - pulls && left > 0
      decreases |s| - pulls
    {
      var element := s[pulls];
      pulls := pulls + 1;
      taken := taken + [element];
      left := left - 1;
      if left <= 0 {
        break;
      }
    }
    return Ok(taken), pulls;
  }

  /** `drop(count)` iterated: everything after the first `count` elements. */
  method Drop<T>(s: seq<T>, count: int) returns (r: Result<seq<T>>)
    ensures r.Err? <==> count <= 0
    ensures r.Err? ==> r.error == CheckCount(count).error
    ensures r.Ok? ==> r.value == s[Min(count, |s|)..] && |r.value| == Max(0, |s| - count)
  {
    var checked := CheckCount(count);
    if checked.Fail? {
      return Err(checked.error);
    }
    var left := count;
    var kept: seq<T> := [];
    var i := 0;
    while i < |s|
      invariant 0 <= i <= |s| && left == Max(0, count - i)
      invariant kept == s[Min(count, i)..i]
    {
      var element := s[i];
      i := i + 1;
      if left > 0 {
        left := left - 1;
        continue;
      }
      kept := kept + [element];
    }
    return Ok(kept);
  }

  /** The position of the first element failing `predicate`, or the length. */
  function FirstFailure<T>(s: seq<T>, pred: T -> bool): (n: nat)
    ensures n <= |s|
    ensures forall i :: 0 <= i < n ==> pred(s[i])
    ensures n < |s| ==> !pred(s[n])
  {
    if s == [] || !pred(s[0]) then 0 else 1 + FirstFailure(s[1..], pred)
  }

  /** `takeWhile(pred)` iterated: the longest prefix whose elements all
      satisfy the predicate. `calls` counts the predicate's evaluations: none
      after the first failure. */
  method TakeWhile<T>(s: seq<T>, pred: T -> bool) returns (r: seq<T>, calls: nat)
    ensures r == s[..FirstFailure(s, pred)]
    ensures calls == Min(FirstFailure(s, pred) + 1, |s|)
  {
    r := [];
    calls := 0;
    var i := 0;
    while i < |s|
      invariant 0 <= i <= |s| && i <= FirstFailure(s, pred)
      invariant r == s[..i] && calls == i
    {
      var element := s[i];
      calls := calls + 1;
      if !pred(element) {
        break;
      }
      r := r + [element];
      i := i + 1;
    }
  }

  /** `dropWhile(pred)` iterated: everything from the first element that
      fails the predicate on, later elements kept whatever they are. `calls`
      counts the predicate's evaluations: none once `complete` is set. */
  method DropWhile<T>(s: seq<T>, pred: T -> bool) returns (r: seq<T>, calls: nat)
    ensures r == s[FirstFailure(s, pred)..]
    ensures calls == Min(FirstFailure(s, pred) + 1, |s|)
    ensures s[..FirstFailure(s, pred)] + r == s
  {
    var complete := false;
    r := [];
    calls := 0;
    var i := 0;
    while i < |s|
      invariant 0 <= i <= |s|
      invariant !complete ==> i <= FirstFailure(s, pred) && r == [] && calls == i
      invariant complete ==> i > FirstFailure(s, pred) && r == s[FirstFailure(s, pred)..i]
      invariant complete ==> calls == FirstFailure(s, pred) + 1
    {
      var element := s[i];
      i := i + 1;
      if !complete {
        calls := calls + 1;
        if pred(element) {
          continue;
        }
      }
      complete := true;
      r := r + [element];
    }
  }

  /** What `SubSequence::drop` and `SubSequence::take` hand back: the same
      sub-sequence, narrowed in place, or a fresh empty sequence. */
  datatype Narrowed = Same | Emptied

  class SubSequence<T> {
    const previous: seq<T>
    var startIndex: int
    var endIndexExclusive: int

    ghost predicate Valid()
      reads this
    {
      0 <= startIndex < endIndexExclusive
    }

    constructor (previous: seq<T>, startIndex: int, endIndexExclusive: int)
      requires 0 <= startIndex < endIndexExclusive
      ensures Valid()
      ensures this.previous == previous
      ensures this.startIndex == startIndex && this.endIndexExclusive == endIndexExclusive
    {
      this.previous := previous;
      this.startIndex := startIndex;
      this.endIndexExclusive := endIndexExclusive;
    }

    /** `drop(count)`: moves the start on when something is left, else an
        empty sequence; a negative count is refused. */
    method Drop(count: int) returns (r: Result<Narrowed>)
      requires Valid()
      modifies this`startIndex
      ensures Valid()
      ensures count < 0 <==> r.Err?
      ensures r.Err? ==> r.error == InvalidArgument("count must be non-negative, but was " + Decimal(count))
      ensures r == Ok(Same) <==> 0 <= count && old(startIndex) + count < endIndexExclusive
      ensures r == Ok(Same) ==> startIndex == old(startIndex) + count
      ensures r != Ok(Same) ==> startIndex == old(startIndex)
    {
      if count < 0 {
        return Err(InvalidArgument("count must be non-negative, but was " + Decimal(count)));
      }
      var newStart := startIndex + count;
      if newStart < endIndexExclusive {
        startIndex := newStart;
        return Ok(Same);
      }
      return Ok(Emptied);
    }

    /** `take(count)`: shrinks the end to `start + count` when that is
        smaller; zero gives an empty sequence; a negative count is refused. */
    method Take(count: int) returns (r: Result<Narrowed>)
      requires Valid()
      modifies this`endIndexExclusive
      ensures Valid()
      ensures count < 0 <==> r.Err?
      ensures r.Err? ==> r.error == InvalidArgument("count must be non-negative, but was " + Decimal(count))
      ensures count == 0 ==> r == Ok(Emptied) && endIndexExclusive == old(endIndexExclusive)
      ensures count > 0 ==>
                r == Ok(Same) && endIndexExclusive == Min(old(endIndexExclusive), startIndex + count)
      ensures count < 0 ==> endIndexExclusive == old(endIndexExclusive)
    {
      if count < 0 {
        return Err(InvalidArgument("count must be non-negative, but was " + Decimal(count)));
      } else if count == 0 {
        return Ok(Emptied);
      }
      var currentCount := endIndexExclusive - startIndex;
      if currentCount > count {
        endIndexExclusive := startIndex + count;
      }
      return Ok(Same);
    }

    /** `getIterator()` as written: the position counter only moves after a
        yield, so while it is below `startIndex` every element is skipped and
        it never gets there. From the start, the first `endIndexExclusive`
        elements; from anywhere else, nothing. */
    method GetIterator() returns (r: seq<T>)
      requires Valid()
      ensures startIndex == 0 ==> r == previous[..Min(endIndexExclusive, |previous|)]
      ensures startIndex > 0 ==> r == []
    {
      var index := 0;
      r := [];
      var i := 0;
      while i < |previous|
        invariant 0 <= i <= |previous|
        invariant startIndex > 0 ==> index == 0 && r == []
        invariant startIndex == 0 ==> index == i && r == previous[..i] && i < endIndexExclusive
      {
        var element := previous[i];
        i := i + 1;
        if index < startIndex {
          continue;
        }
        r := r + [element];
        index := index + 1;
        if index >= endIndexExclusive {
          break;
        }
      }
    }

    /** `getIterator()` as evidently intended: the counter also moves past
        skipped elements, so the positions `startIndex` up to
        `endIndexExclusive` come out. */
    method GetIteratorCorrected() returns (r: seq<T>)
      requires Valid()
      ensures r == previous[Min(startIndex, |previous|)..Min(endIndexExclusive, |previous|)]
    {
      var index := 0;
      r := [];
      while index < |previous|
        invariant 0 <= index <= |previous| && index < endIndexExclusive
        invariant r == previous[Min(startIndex, index)..index]
      {
        var element := previous[index];
        if index < startIndex {
          index := index + 1;
          continue;
        }
        r := r + [element];
        index := index + 1;
        if index >= endIndexExclusive {
          break;
        }
      }
    }
  }

  /** `subSequence(start, end)`: the constructor's checks, in order. */
  method NewSubSequence<T>(previous: seq<T>, startIndex: int, endIndexExclusive: int)
    returns (r: Result<SubSequence<T>>)
    ensures r.Err? <==> startIndex < 0 || endIndexExclusive < 0 || endIndexExclusive <= startIndex
    ensures startIndex < 0 ==>
              r == Err(InvalidArgument("startIndex must be non-negative, but was " + Decimal(startIndex)))
    ensures 0 <= startIndex && endIndexExclusive < 0 ==>
              r == Err(InvalidArgument("startIndex must be non-negative, but was " + Decimal(endIndexExclusive)))
    ensures 0 <= startIndex && 0 <= endIndexExclusive <= startIndex ==>
              r == Err(InvalidArgument("endIndex (" + Decimal(endIndexExclusive) + ") must come after startIndex ("
                                       + Decimal(startIndex) + ")"))
    ensures r.Ok? ==>
              fresh(r.value) && r.value.Valid() && r.value.previous == previous
              && r.value.startIndex == startIndex && r.value.endIndexExclusive == endIndexExclusive
  {
    if startIndex < 0 {
      return Err(InvalidArgument("startIndex must be non-negative, but was " + Decimal(startIndex)));
    }
    if endIndexExclusive < 0 {
      return Err(InvalidArgument("startIndex must be non-negative, but was " + Decimal(endIndexExclusive)));
    }
    if endIndexExclusive <= startIndex {
      return Err(InvalidArgument("endIndex (" + Decimal(endIndexExclusive) + ") must come after startIndex ("
                                 + Decimal(startIndex) + ")"));
    }
    var sub := new SubSequence(previous, startIndex, endIndexExclusive);
    return Ok(sub);
  }

  /** Counterexample: the sub-sequence from position 1 to 3 of [1, 2, 3] comes
      out empty as written, and as [2, 3] once corrected. */
  method SubSequenceFromOne() returns (asWritten: seq<int>, corrected: seq<int>)
    ensures asWritten == [] && corrected == [2, 3]
  {
    var sub := new SubSequence([1, 2, 3], 1, 3);
    asWritten := sub.GetIterator();
    corrected := sub.GetIteratorCorrected();
  }

  /** Narrowing then iterating, with the corrected iterator: `drop` and `take`
      on a sub-sequence select the same elements as dropping and taking from
      its output. */
  method DropThenTake<T>(previous: seq<T>, startIndex: int, endIndexExclusive: int, dropCount: nat, takeCount: nat)
    returns (r: Result<seq<T>>)
    requires 0 <= startIndex < endIndexExclusive <= |previous|
    ensures r.Ok?
    ensures r.value == Truncated(previous[startIndex..endIndexExclusive][Min(dropCount, endIndexExclusive - startIndex)..], takeCount)
  {
    var sub := new SubSequence(previous, startIndex, endIndexExclusive);
    var dropped := sub.Drop(dropCount);
    if dropped == Ok(Emptied) {
      return Ok([]);
    }
    assert dropped.Ok? && dropped.value != Emptied;
    assert dropped == Ok(Same);
    ghost var rest := previous[startIndex..endIndexExclusive][dropCount..];
    assert rest == previous[sub.startIndex..endIndexExclusive];
    var taken := sub.Take(takeCount);
    if taken == Ok(Emptied) {
      return Ok([]);
    }
    var out := sub.GetIteratorCorrected();
    assert out == previous[sub.startIndex..sub.endIndexExclusive];
    assert sub.endIndexExclusive - sub.startIndex == Min(takeCount, |rest|);
    return Ok(out);
  }

  /** The first `n` elements, or all of a shorter list. */
  function Truncated<T>(s: seq<T>, n: nat): seq<T>
  {
    s[..Min(n, |s|)]
  }
}
