/** `PredicateSearchingOperations`: `count`, `first`, `last`, `single`
    (and their `OrNull` forms), `indexOfFirst` and `indexOfLast`. A missing
    predicate accepts every element, except in `single`, which calls it
    unconditionally. */
module Searching {
  import opened Outcomes
  import opened Matching

  /** `count(predicate)` */
  method Count<T>(s: seq<T>, pred: Option<T -> bool>) returns (n: nat)
    ensures n == CountMatching(s, Accepts(pred))
    ensures pred.None? ==> n == |s|
  {
    n := 0;
    var i := 0;
    while i < |s|
      invariant 0 <= i <= |s| && n == CountMatching(s[..i], Accepts(pred))
    {
      assert s[..i + 1][..i] == s[..i];
      assert Accepts(pred)(s[i]) == (pred.None? || pred.value(s[i]));
      if pred.None? || pred.value(s[i]) {
        n := n + 1;
      }
      i := i + 1;
    }
    assert s[..i] == s;
    if pred.None? {
      CountAll(s, Accepts(pred));
    }
  }

  /** When everything is accepted the count is the length. */
  lemma {:induction false} CountAll<T>(s: seq<T>, accept: T -> bool)
    requires forall x :: accept(x)
    ensures CountMatching(s, accept) == |s|
  {
    if s != [] {
      CountAll(s[..|s| - 1], accept);
    }
  }

  /** `first(predicate)`: the first accepted element; UnexpectedValueException
      when there is none. */
  method First<T>(s: seq<T>, pred: Option<T -> bool>) returns (r: Result<T>)
    ensures r.Ok? <==> FirstMatch(s, Accepts(pred)) < |s|
    ensures r.Ok? ==> r.value == s[FirstMatch(s, Accepts(pred))]
    ensures r.Err? ==> r.error == NoMatch
  {
    var i := 0;
    while i < |s|
      invariant 0 <= i <= |s|
      invariant forall j :: 0 <= j < i ==> !Accepts(pred)(s[j])
    {
      assert Accepts(pred)(s[i]) == (pred.None? || pred.value(s[i]));
      if pred.None? || pred.value(s[i]) {
        return Ok(s[i]);
      }
      i := i + 1;
    }
    return Err(NoMatch);
  }

  /** `firstOrNull(predicate)` */
  method FirstOrNull<T>(s: seq<T>, pred: Option<T -> bool>) returns (r: Option<T>)
    ensures r.Some? <==> FirstMatch(s, Accepts(pred)) < |s|
    ensures r.Some? ==> r.value == s[FirstMatch(s, Accepts(pred))]
  {
    var found := First(s, pred);
    r := if found.Ok? then Some(found.value) else None;
  }

  /** `indexOfFirst(predicate)`: the position of the first accepted element, or -1. */
  method IndexOfFirst<T>(s: seq<T>, pred: T -> bool) returns (index: int)
    ensures index == if FirstMatch(s, pred) < |s| then FirstMatch(s, pred) else -1
  {
    var i := 0;
    while i < |s|
      invariant 0 <= i <= |s|
      invariant forall j :: 0 <= j < i ==> !pred(s[j])
    {
      if pred(s[i]) {
        return i;
      }
      i := i + 1;
    }
    return -1;
  }

  /** `indexOfLast(predicate)`: the position of the last accepted element, or -1. */
  method IndexOfLast<T>(s: seq<T>, pred: T -> bool) returns (index: int)
    ensures index == LastMatch(s, pred)
  {
    index := -1;
    var i := 0;
    while i < |s|
      invariant 0 <= i <= |s| && index == LastMatch(s[..i], pred)
    {
      assert s[..i + 1][..i] == s[..i];
      if pred(s[i]) {
        index := i;
      }
      i := i + 1;
    }
    assert s[..i] == s;
  }

  /** `last(predicate)`: the last accepted element; UnexpectedValueException
      when there is none. The `Nothing` sentinel becomes `None`. */
  method Last<T>(s: seq<T>, pred: Option<T -> bool>) returns (r: Result<T>)
    ensures r.Ok? <==> LastMatch(s, Accepts(pred)) >= 0
    ensures r.Ok? ==> r.value == s[LastMatch(s, Accepts(pred))]
    ensures r.Err? ==> r.error == NoMatch
  {
    var lastElement: Option<T> := None;
    var i := 0;
    while i < |s|
      invariant 0 <= i <= |s|
      invariant lastElement.Some? <==> LastMatch(s[..i], Accepts(pred)) >= 0
      invariant lastElement.Some? ==> lastElement.value == s[LastMatch(s[..i], Accepts(pred))]
    {
      assert s[..i + 1][..i] == s[..i];
      assert Accepts(pred)(s[i]) == (pred.None? || pred.value(s[i]));
      if pred.None? || pred.value(s[i]) {
        lastElement := Some(s[i]);
      }
      i := i + 1;
    }
    assert s[..i] == s;
    if lastElement.Some? {
      return Ok(lastElement.value);
    }
    return Err(NoMatch);
  }

  /** `lastOrNull(predicate)` */
  method LastOrNull<T>(s: seq<T>, pred: Option<T -> bool>) returns (r: Option<T>)
    ensures r.Some? <==> LastMatch(s, Accepts(pred)) >= 0
    ensures r.Some? ==> r.value == s[LastMatch(s, Accepts(pred))]
  {
    var found := Last(s, pred);
    r := if found.Ok? then Some(found.value) else None;
  }

  /** `first` and `last` agree exactly when at most one element matches. */
  lemma FirstIsLastIffSingle<T>(s: seq<T>, accept: T -> bool)
    requires FirstMatch(s, accept) < |s|
    ensures FirstMatch(s, accept) == LastMatch(s, accept) <==> CountMatching(s, accept) == 1
  {
    CountAndPositions(s, accept);
  }

  /** `single(predicate)` as written: the predicate is called on every element
      even when none was given, which is a TypeError on the first element;
      a second match throws OverflowException at once, and no match throws
      UnexpectedValueException. */
  method Single<T>(s: seq<T>, pred: Option<T -> bool>) returns (r: Result<T>)
    ensures pred.None? ==> r == if s == [] then Err(NoMatch) else Err(TypeMismatch)
    ensures pred.Some? ==> r == SingleOf(s, pred.value)
  {
    if pred.None? {
      if s == [] {
        return Err(NoMatch);
      }
      return Err(TypeMismatch);
    }
    r := SingleMatch(s, pred.value);
  }

  /** What `single` promises: the one accepted element, UnexpectedValueException
      when none is accepted, OverflowException for more than one. */
  function SingleOf<T>(s: seq<T>, accept: T -> bool): (r: Result<T>)
  {
    var k := FirstMatch(s, accept);
    if k == |s| then Err(NoMatch)
    else if CountMatching(s, accept) == 1 then Ok(s[k])
    else Err(MoreThanOne)
  }

  /** No match, more than one, or the one accepted element, which really is
      the only one. */
  lemma SingleOfIsUnique<T>(s: seq<T>, accept: T -> bool)
    ensures SingleOf(s, accept) == Err(NoMatch) <==> CountMatching(s, accept) == 0
    ensures SingleOf(s, accept) == Err(MoreThanOne) <==> CountMatching(s, accept) >= 2
    ensures var r := SingleOf(s, accept);
            r.Ok? ==> exists k :: 0 <= k < |s| && r.value == s[k] && accept(s[k])
                                  && forall j :: 0 <= j < |s| && j != k ==> !accept(s[j])
  {
    CountAndPositions(s, accept);
    if SingleOf(s, accept).Ok? {
      var k := FirstMatch(s, accept);
      assert k == LastMatch(s, accept);
    }
  }

  /** The loop of `single` once a predicate is known. */
  method SingleMatch<T>(s: seq<T>, accept: T -> bool) returns (r: Result<T>)
    ensures r == SingleOf(s, accept)
  {
    var foundElement: Option<T> := None;
    var i := 0;
    while i < |s|
      invariant 0 <= i <= |s|
      invariant CountMatching(s[..i], accept) <= 1
      invariant foundElement.None? <==> CountMatching(s[..i], accept) == 0
      invariant foundElement.Some? ==> FirstMatch(s[..i], accept) < i
                                       && foundElement.value == s[FirstMatch(s[..i], accept)]
    {
      assert s[..i + 1][..i] == s[..i];
      CountAndPositions(s[..i], accept);
      if accept(s[i]) {
        if foundElement.Some? {
          CountPrefix(s, i + 1, accept);
          return Err(MoreThanOne);
        }
        foundElement := Some(s[i]);
        CountAndPositions(s[..i + 1], accept);
      } else if foundElement.Some? {
        FirstMatchExtends(s, i, accept);
      }
      i := i + 1;
    }
    assert s[..i] == s;
    CountAndPositions(s, accept);
    if foundElement.Some? {
      return Ok(foundElement.value);
    }
    return Err(NoMatch);
  }

  /** A match found in a prefix is still the first match of a longer prefix. */
  lemma FirstMatchExtends<T>(s: seq<T>, i: nat, accept: T -> bool)
    requires i < |s| && FirstMatch(s[..i], accept) < i
    ensures FirstMatch(s[..i + 1], accept) == FirstMatch(s[..i], accept)
  {
    var n := FirstMatch(s[..i], accept);
    assert s[..i + 1][n] == s[n] == s[..i][n];
    assert forall j :: 0 <= j < n ==> s[..i + 1][j] == s[..i][j];
  }

  /** `singleOrNull(predicate)` as written: only the two documented exceptions
      are caught, so the TypeError of a missing predicate escapes. */
  method SingleOrNull<T>(s: seq<T>, pred: Option<T -> bool>) returns (r: Result<Option<T>>)
    ensures pred.None? && s != [] ==> r == Err(TypeMismatch)
    ensures pred.None? && s == [] ==> r == Ok(None)
    ensures pred.Some? ==>
              r == Ok(if SingleOf(s, pred.value).Ok? then Some(SingleOf(s, pred.value).value) else None)
  {
    var single := Single(s, pred);
    if single.Ok? {
      return Ok(Some(single.value));
    }
    if single.error == TypeMismatch {
      return Err(TypeMismatch);
    }
    return Ok(None);
  }

  /** `single()` as documented: without a predicate every element matches. */
  method SingleCorrected<T>(s: seq<T>, pred: Option<T -> bool>) returns (r: Result<T>)
    ensures r == SingleOf(s, Accepts(pred))
    ensures pred.None? ==> (r.Ok? <==> |s| == 1) && (|s| == 1 ==> r == Ok(s[0]))
  {
    r := SingleMatch(s, Accepts(pred));
    if pred.None? {
      CountAll(s, Accepts(pred));
    }
  }

  /** `single()` without a predicate over `[5]`: as written a TypeError, as
      documented the element 5. */
  method SingleWithoutPredicate() returns (asWritten: Result<int>, corrected: Result<int>)
    ensures asWritten == Err(TypeMismatch)
    ensures corrected == Ok(5)
  {
    asWritten := Single([5], None);
    corrected := SingleCorrected([5], None);
  }
}
