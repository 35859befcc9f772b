/** `ElementComparingOperations`: `max`, `min` and their `By`/`With` forms.
    Each keeps the current extreme and replaces it only on a strictly
    better element, so ties go to the earliest element; an empty sequence
    gives `null` (`None`). */
module Comparing {
  import opened Outcomes
  import opened Sorting

  /** `max()` over integers, with PHP's `>`. */
  method Max(s: seq<int>) returns (r: Option<int>)
    ensures r.None? <==> s == []
    ensures r.Some? ==> r.value in s && forall x :: x in s ==> x <= r.value
  {
    var largest: Option<int> := None;
    var i := 0;
    while i < |s|
      invariant 0 <= i <= |s|
      invariant largest.None? <==> i == 0
      invariant largest.Some? ==> largest.value in s[..i] && forall x :: x in s[..i] ==> x <= largest.value
    {
      assert s[..i + 1] == s[..i] + [s[i]];
      if largest.None? || s[i] > largest.value {
        largest := Some(s[i]);
      }
      i := i + 1;
    }
    assert s[..i] == s;
    return largest;
  }

  /** `min()` over integers, with PHP's `<`. */
  method Min(s: seq<int>) returns (r: Option<int>)
    ensures r.None? <==> s == []
    ensures r.Some? ==> r.value in s && forall x :: x in s ==> r.value <= x
  {
    var smallest: Option<int> := None;
    var i := 0;
    while i < |s|
      invariant 0 <= i <= |s|
      invariant smallest.None? <==> i == 0
      invariant smallest.Some? ==> smallest.value in s[..i] && forall x :: x in s[..i] ==> smallest.value <= x
    {
      assert s[..i + 1] == s[..i] + [s[i]];
      if smallest.None? || s[i] < smallest.value {
        smallest := Some(s[i]);
      }
      i := i + 1;
    }
    assert s[..i] == s;
    return smallest;
  }

  /** A comparator whose signs behave like an order: swapping the arguments
      flips the sign, and "not after" is transitive. */
  ghost predicate Consistent<T(!new)>(cmp: Comparator<T>)
  {
    (forall a, b :: cmp(a, b) > 0 <==> cmp(b, a) < 0)
    && (forall a, b, c :: cmp(a, b) <= 0 && cmp(b, c) <= 0 ==> cmp(a, c) <= 0)
  }

  /** "Not after" followed by "strictly before" is "strictly before". */
  lemma StrictlyBefore<T(!new)>(cmp: Comparator<T>, a: T, b: T, c: T)
    requires Consistent(cmp) && cmp(a, b) <= 0 && cmp(b, c) < 0
    ensures cmp(a, c) < 0
  {
  }

  /** "Strictly before" followed by "not after" is "strictly before". */
  lemma BeforeThenNotAfter<T(!new)>(cmp: Comparator<T>, a: T, b: T, c: T)
    requires Consistent(cmp) && cmp(a, b) < 0 && cmp(b, c) <= 0
    ensures cmp(a, c) < 0
  {
  }

  /** The element `maxWith` ends with: the last element replaces the
      extreme of the others when it compares greater. */
  function Largest<T>(s: seq<T>, cmp: Comparator<T>): (r: Option<T>)
    ensures r.None? <==> s == []
    ensures r.Some? ==> r.value in s
  {
    if s == [] then None
    else
      var m := Largest(s[..|s| - 1], cmp);
      if m.None? || cmp(s[|s| - 1], m.value) > 0 then Some(s[|s| - 1]) else m
  }

  /** The element `minWith` ends with. */
  function Smallest<T>(s: seq<T>, cmp: Comparator<T>): (r: Option<T>)
    ensures r.None? <==> s == []
    ensures r.Some? ==> r.value in s
  {
    if s == [] then None
    else
      var m := Smallest(s[..|s| - 1], cmp);
      if m.None? || cmp(s[|s| - 1], m.value) < 0 then Some(s[|s| - 1]) else m
  }

  /** Under a consistent comparator no element compares greater than
      `Largest`. */
  lemma {:induction false} LargestIsMaximum<T(!new)>(s: seq<T>, cmp: Comparator<T>, i: int)
    requires Consistent(cmp) && 0 <= i < |s|
    ensures cmp(s[i], Largest(s, cmp).value) <= 0
  {
    var init := s[..|s| - 1];
    var last := s[|s| - 1];
    var m := Largest(init, cmp);
    if i < |s| - 1 {
      assert s[i] == init[i];
      LargestIsMaximum(init, cmp, i);
      if cmp(last, m.value) > 0 {
        assert cmp(m.value, last) < 0;
      }
    } else if m.Some? && cmp(last, m.value) <= 0 {
    }
  }

  /** Every element before the first occurrence of `Largest` compares
      strictly smaller: ties go to the earliest element. */
  lemma {:induction false} LargestIsEarliest<T(!new)>(s: seq<T>, cmp: Comparator<T>)
    requires Consistent(cmp) && s != []
    ensures exists k :: 0 <= k < |s| && s[k] == Largest(s, cmp).value
                        && forall i :: 0 <= i < k ==> cmp(s[i], s[k]) < 0
  {
    var init := s[..|s| - 1];
    var last := s[|s| - 1];
    if init == [] {
      assert s[0] == Largest(s, cmp).value;
    } else {
      LargestIsEarliest(init, cmp);
      var m := Largest(init, cmp).value;
      var k :| 0 <= k < |init| && init[k] == m && forall i :: 0 <= i < k ==> cmp(init[i], init[k]) < 0;
      if cmp(last, m) > 0 {
        forall i | 0 <= i < |s| - 1
          ensures cmp(s[i], last) < 0
        {
          assert s[i] == init[i];
          LargestIsMaximum(init, cmp, i);
          StrictlyBefore(cmp, s[i], m, last);
        }
        assert s[|s| - 1] == Largest(s, cmp).value;
      } else {
        assert s[k] == m == Largest(s, cmp).value;
        forall i | 0 <= i < k
          ensures cmp(s[i], s[k]) < 0
        {
          assert s[i] == init[i];
        }
      }
    }
  }

  /** Under a consistent comparator no element compares smaller than
      `Smallest`. */
  lemma {:induction false} SmallestIsMinimum<T(!new)>(s: seq<T>, cmp: Comparator<T>, i: int)
    requires Consistent(cmp) && 0 <= i < |s|
    ensures cmp(Smallest(s, cmp).value, s[i]) <= 0
  {
    var init := s[..|s| - 1];
    var last := s[|s| - 1];
    var m := Smallest(init, cmp);
    if i < |s| - 1 {
      assert s[i] == init[i];
      SmallestIsMinimum(init, cmp, i);
      if cmp(last, m.value) < 0 {
        assert cmp(last, m.value) <= 0;
      }
    } else if m.Some? && cmp(last, m.value) >= 0 {
      assert cmp(m.value, last) <= 0;
    }
  }

  /** Every element before the first occurrence of `Smallest` compares
      strictly greater: ties go to the earliest element. */
  lemma {:induction false} SmallestIsEarliest<T(!new)>(s: seq<T>, cmp: Comparator<T>)
    requires Consistent(cmp) && s != []
    ensures exists k :: 0 <= k < |s| && s[k] == Smallest(s, cmp).value
                        && forall i :: 0 <= i < k ==> cmp(s[k], s[i]) < 0
  {
    var init := s[..|s| - 1];
    var last := s[|s| - 1];
    if init == [] {
      assert s[0] == Smallest(s, cmp).value;
    } else {
      SmallestIsEarliest(init, cmp);
      var m := Smallest(init, cmp).value;
      var k :| 0 <= k < |init| && init[k] == m && forall i :: 0 <= i < k ==> cmp(init[k], init[i]) < 0;
      if cmp(last, m) < 0 {
        forall i | 0 <= i < |s| - 1
          ensures cmp(last, s[i]) < 0
        {
          assert s[i] == init[i];
          SmallestIsMinimum(init, cmp, i);
          BeforeThenNotAfter(cmp, last, m, s[i]);
        }
        assert s[|s| - 1] == Smallest(s, cmp).value;
      } else {
        assert s[k] == m == Smallest(s, cmp).value;
        forall i | 0 <= i < k
          ensures cmp(s[k], s[i]) < 0
        {
          assert s[i] == init[i];
        }
      }
    }
  }

  /** `maxWith(comparator)` */
  method MaxWith<T>(s: seq<T>, cmp: Comparator<T>) returns (r: Option<T>)
    ensures r == Largest(s, cmp)
  {
    var largest: Option<T> := None;
    var i := 0;
    while i < |s|
      invariant 0 <= i <= |s| && largest == Largest(s[..i], cmp)
    {
      assert s[..i + 1][..i] == s[..i];
      if largest.None? || cmp(s[i], largest.value) > 0 {
        largest := Some(s[i]);
      }
      i := i + 1;
    }
    assert s[..i] == s;
    return largest;
  }

  /** `minWith(comparator)` */
  method MinWith<T>(s: seq<T>, cmp: Comparator<T>) returns (r: Option<T>)
    ensures r == Smallest(s, cmp)
  {
    var smallest: Option<T> := None;
    var i := 0;
    while i < |s|
      invariant 0 <= i <= |s| && smallest == Smallest(s[..i], cmp)
    {
      assert s[..i + 1][..i] == s[..i];
      if smallest.None? || cmp(s[i], smallest.value) < 0 {
        smallest := Some(s[i]);
      }
      i := i + 1;
    }
    assert s[..i] == s;
    return smallest;
  }

  /** A key comparator is consistent. */
  lemma CompareByConsistent<T(!new)>(selector: T -> int)
    ensures Consistent(CompareBy(selector))
  {
  }

  /** `maxBy(selector)`: an element with the greatest key, the earliest such. */
  method MaxBy<T(!new)>(s: seq<T>, selector: T -> int) returns (r: Option<T>)
    ensures r == Largest(s, CompareBy(selector))
    ensures r.None? <==> s == []
    ensures r.Some? ==> r.value in s && forall x :: x in s ==> selector(x) <= selector(r.value)
    ensures r.Some? ==> exists k :: 0 <= k < |s| && s[k] == r.value
                                    && forall i :: 0 <= i < k ==> selector(s[i]) < selector(s[k])
  {
    r := MaxWith(s, CompareBy(selector));
    if s != [] {
      CompareByConsistent(selector);
      forall x | x in s
        ensures selector(x) <= selector(r.value)
      {
        var i :| 0 <= i < |s| && s[i] == x;
        LargestIsMaximum(s, CompareBy(selector), i);
      }
      LargestIsEarliest(s, CompareBy(selector));
      ghost var k :| 0 <= k < |s| && s[k] == r.value
               && forall i :: 0 <= i < k ==> CompareBy(selector)(s[i], s[k]) < 0;
      assert forall i :: 0 <= i < k ==> selector(s[i]) < selector(s[k]);
    }
  }

  /** `minBy(selector)`: an element with the least key, the earliest such. */
  method MinBy<T(!new)>(s: seq<T>, selector: T -> int) returns (r: Option<T>)
    ensures r == Smallest(s, CompareBy(selector))
    ensures r.None? <==> s == []
    ensures r.Some? ==> r.value in s && forall x :: x in s ==> selector(r.value) <= selector(x)
    ensures r.Some? ==> exists k :: 0 <= k < |s| && s[k] == r.value
                                    && forall i :: 0 <= i < k ==> selector(s[k]) < selector(s[i])
  {
    r := MinWith(s, CompareBy(selector));
    if s != [] {
      CompareByConsistent(selector);
      forall x | x in s
        ensures selector(r.value) <= selector(x)
      {
        var i :| 0 <= i < |s| && s[i] == x;
        SmallestIsMinimum(s, CompareBy(selector), i);
      }
      SmallestIsEarliest(s, CompareBy(selector));
      ghost var k :| 0 <= k < |s| && s[k] == r.value
               && forall i :: 0 <= i < k ==> CompareBy(selector)(s[k], s[i]) < 0;
      assert forall i :: 0 <= i < k ==> selector(s[k]) < selector(s[i]);
    }
  }
}
