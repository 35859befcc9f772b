/** `PredicateMatchingOperations` (`all`, `any`, `none`) and the reference
    definitions the predicate-driven terminal operations are stated with:
    the first and the last matching position and the number of matches. */
module Matching {
  import opened Outcomes
  import opened Filtering

  /** An optional predicate as the terminal operations read it: `null`
      accepts every element. */
  function Accepts<T>(pred: Option<T -> bool>): T -> bool
  {
    (x: T) => pred.None? || pred.value(x)
  }

  /** The first position whose element is accepted, `|s|` when there is none. */
  function FirstMatch<T>(s: seq<T>, accept: T -> bool): (n: nat)
    ensures n <= |s|
    ensures forall i :: 0 <= i < n ==> !accept(s[i])
    ensures n < |s| ==> accept(s[n])
  {
    if s == [] then 0 else if accept(s[0]) then 0 else 1 + FirstMatch(s[1..], accept)
  }

  /** The last position whose element is accepted, -1 when there is none. */
  function LastMatch<T>(s: seq<T>, accept: T -> bool): (n: int)
    ensures -1 <= n < |s|
    ensures forall i :: n < i < |s| ==> !accept(s[i])
    ensures n >= 0 ==> accept(s[n])
  {
    if s == [] then -1
    else if accept(s[|s| - 1]) then |s| - 1
    else LastMatch(s[..|s| - 1], accept)
  }

  /** How many elements are accepted. */
  function CountMatching<T>(s: seq<T>, accept: T -> bool): (n: nat)
    ensures n <= |s|
  {
    if s == [] then 0
    else CountMatching(s[..|s| - 1], accept) + if accept(s[|s| - 1]) then 1 else 0
  }

  /** Counting is the length of the matching elements' filter. */
  lemma {:induction false} CountIsFilteredLength<T>(s: seq<T>, accept: T -> bool)
    ensures CountMatching(s, accept) == |Filtered(s, (x: T, i: int) => accept(x), true)|
  {
    if s != [] {
      CountIsFilteredLength(s[..|s| - 1], accept);
    }
  }

  /** No match at all, exactly one, or at least two: the count tells the
      first and last matching positions apart. */
  lemma {:induction false} CountAndPositions<T>(s: seq<T>, accept: T -> bool)
    ensures CountMatching(s, accept) == 0 <==> FirstMatch(s, accept) == |s|
    ensures CountMatching(s, accept) == 0 <==> LastMatch(s, accept) == -1
    ensures CountMatching(s, accept) == 1 <==>
              FirstMatch(s, accept) < |s| && FirstMatch(s, accept) == LastMatch(s, accept)
  {
    if s != [] {
      var init := s[..|s| - 1];
      CountAndPositions(init, accept);
      assert forall i :: 0 <= i < |init| ==> init[i] == s[i];
      if accept(s[|s| - 1]) {
        if FirstMatch(init, accept) < |init| {
          assert FirstMatch(s, accept) == FirstMatch(init, accept);
        }
      } else {
        assert FirstMatch(s, accept) == FirstMatch(init, accept) || FirstMatch(init, accept) == |init|;
      }
    }
  }

  /** Counting a prefix never gives more than counting the whole. */
  lemma {:induction false} CountPrefix<T>(s: seq<T>, n: nat, accept: T -> bool)
    requires n <= |s|
    ensures CountMatching(s[..n], accept) <= CountMatching(s, accept)
    decreases |s| - n
  {
    if n < |s| {
      assert s[..n + 1][..n] == s[..n];
      CountPrefix(s, n + 1, accept);
    } else {
      assert s[..n] == s;
    }
  }

  /** `all(predicate)`: false at the first element that fails, which is the
      last one the predicate sees. */
  method All<T>(s: seq<T>, pred: T -> bool) returns (b: bool, ghost calls: nat)
    ensures b <==> forall i :: 0 <= i < |s| ==> pred(s[i])
    ensures calls == if b then |s| else FirstMatch(s, (x: T) => !pred(x)) + 1
  {
    calls := 0;
    var i := 0;
    while i < |s|
      invariant 0 <= i <= |s| && calls == i
      invariant forall j :: 0 <= j < i ==> pred(s[j])
    {
      calls := calls + 1;
      if !pred(s[i]) {
        ghost var failing := (x: T) => !pred(x);
        assert failing(s[i]) && forall j :: 0 <= j < i ==> !failing(s[j]);
        return false, calls;
      }
      i := i + 1;
    }
    return true, calls;
  }

  /** `any(predicate)`: true at the first accepted element; with no
      predicate, true iff there is an element. */
  method Any<T>(s: seq<T>, pred: Option<T -> bool>) returns (b: bool)
    ensures b <==> exists i :: 0 <= i < |s| && Accepts(pred)(s[i])
    ensures pred.None? ==> (b <==> s != [])
  {
    var i := 0;
    while i < |s|
      invariant 0 <= i <= |s|
      invariant forall j :: 0 <= j < i ==> !Accepts(pred)(s[j])
      invariant pred.None? ==> i == 0
    {
      assert Accepts(pred)(s[i]) == (pred.None? || pred.value(s[i]));
      if pred.None? || pred.value(s[i]) {
        return true;
      }
      i := i + 1;
    }
    return false;
  }

  /** `none(predicate)`: the negation of `any`, false at the first accepted element. */
  method NoneMatch<T>(s: seq<T>, pred: Option<T -> bool>) returns (b: bool)
    ensures b <==> forall i :: 0 <= i < |s| ==> !Accepts(pred)(s[i])
    ensures pred.None? ==> (b <==> s == [])
  {
    var i := 0;
    while i < |s|
      invariant 0 <= i <= |s|
      invariant forall j :: 0 <= j < i ==> !Accepts(pred)(s[j])
      invariant pred.None? ==> i == 0
    {
      assert Accepts(pred)(s[i]) == (pred.None? || pred.value(s[i]));
      if pred.None? || pred.value(s[i]) {
        return false;
      }
      i := i + 1;
    }
    return true;
  }
}
