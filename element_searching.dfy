/** `ElementSearchingOperations`: `contains`, `elementAt` (and its `OrElse`
    and `OrNull` forms), `indexOf` and `lastIndexOf`. Elements are compared
    with PHP's strict `===`, which is Dafny equality here; positions are the
    keys the upstream iterator reports, counted from 0. */
module ElementSearching {
  import opened Outcomes
  import opened Matching

  /** `contains(element)` */
  method Contains<T(==)>(s: seq<T>, element: T) returns (b: bool)
    ensures b <==> element in s
  {
    var i := 0;
    while i < |s|
      invariant 0 <= i <= |s| && element !in s[..i]
    {
      if s[i] == element {
        return true;
      }
      assert s[..i + 1] == s[..i] + [s[i]];
      i := i + 1;
    }
    assert s[..i] == s;
    return false;
  }

  /** `elementAt(index)`: OutOfRangeException naming the index when no
      position matches it. */
  method ElementAt<T>(s: seq<T>, index: int) returns (r: Result<T>)
    ensures r.Ok? <==> 0 <= index < |s|
    ensures r.Ok? ==> r.value == s[index]
    ensures r.Err? ==> r.error == IndexOutOfRange(index)
  {
    var existingIndex := 0;
    while existingIndex < |s|
      invariant 0 <= existingIndex <= |s|
      invariant index < 0 || index >= existingIndex
    {
      if existingIndex == index {
        return Ok(s[existingIndex]);
      }
      existingIndex := existingIndex + 1;
    }
    return Err(IndexOutOfRange(index));
  }

  /** `elementAtOrElse(index, defaultValue)`: the default is computed from the index. */
  method ElementAtOrElse<T>(s: seq<T>, index: int, defaultValue: int -> T) returns (r: T)
    ensures r == if 0 <= index < |s| then s[index] else defaultValue(index)
  {
    var found := ElementAt(s, index);
    r := if found.Ok? then found.value else defaultValue(index);
  }

  /** `elementAtOrNull(index)` */
  method ElementAtOrNull<T>(s: seq<T>, index: int) returns (r: Option<T>)
    ensures r == if 0 <= index < |s| then Some(s[index]) else None
  {
    var found := ElementAt(s, index);
    r := if found.Ok? then Some(found.value) else None;
  }

  /** `indexOf(element)`: the first position holding the element, or -1. */
  method IndexOf<T(==)>(s: seq<T>, element: T) returns (index: int)
    ensures index == -1 <==> element !in s
    ensures index != -1 ==> 0 <= index < |s| && s[index] == element && element !in s[..index]
    ensures index == if FirstMatch(s, (x: T) => x == element) < |s|
                     then FirstMatch(s, (x: T) => x == element) else -1
  {
    var i := 0;
    while i < |s|
      invariant 0 <= i <= |s| && element !in s[..i]
    {
      if s[i] == element {
        return i;
      }
      assert s[..i + 1] == s[..i] + [s[i]];
      i := i + 1;
    }
    assert s[..i] == s;
    return -1;
  }

  /** `lastIndexOf(element)`: the last position holding the element, or -1. */
  method LastIndexOf<T(==)>(s: seq<T>, element: T) returns (index: int)
    ensures index == -1 <==> element !in s
    ensures index != -1 ==> 0 <= index < |s| && s[index] == element && element !in s[index + 1..]
    ensures index == LastMatch(s, (x: T) => x == element)
  {
    var lastIndex := -1;
    var i := 0;
    while i < |s|
      invariant 0 <= i <= |s| && lastIndex == LastMatch(s[..i], (x: T) => x == element)
    {
      assert s[..i + 1][..i] == s[..i];
      if s[i] == element {
        lastIndex := i;
      }
      i := i + 1;
    }
    assert s[..i] == s;
    index := lastIndex;
    if index != -1 {
      assert forall j :: index < j < |s| ==> s[j] != element;
      assert element !in s[index + 1..];
    } else {
      assert forall j :: 0 <= j < |s| ==> s[j] != element;
    }
  }

  /** A present element's first position is not after its last, and both
      hold the element. */
  lemma IndexOfNotAfterLastIndexOf<T>(s: seq<T>, element: T)
    requires element in s
    ensures var first := FirstMatch(s, (x: T) => x == element);
            var last := LastMatch(s, (x: T) => x == element);
            0 <= first <= last < |s| && s[first] == element && s[last] == element
  {
  }
}
