/** `SortingSequence` and the `sorted*` family of `StatefulOperationsTrait`.
    The stage drains its upstream and hands it to PHP's `usort`, `sort` or
    `rsort`; those are modelled by one reference sort that is a permutation
    of its input and ordered by the comparator whenever the comparator
    orders every pair of values one way or the other. */
module Sorting {

  /** A comparator returns a negative number, zero or a positive number as
      its first argument comes before, together with or after its second. */
  type Comparator<!T> = (T, T) -> int

  /** What `usort` needs of a comparator: of any two values, one may come first. */
  ghost predicate Total<T(!new)>(cmp: Comparator<T>)
  {
    forall a, b :: cmp(a, b) <= 0 || cmp(b, a) <= 0
  }

  /** Neighbours are in comparator order. */
  predicate SortedBy<T>(s: seq<T>, cmp: Comparator<T>)
  {
    forall i :: 0 <= i < |s| - 1 ==> cmp(s[i], s[i + 1]) <= 0
  }

  /** Places `x` before the first element it may precede. */
  function Insert<T(==)>(x: T, s: seq<T>, cmp: Comparator<T>): (r: seq<T>)
    ensures multiset(r) == multiset(s) + multiset{x}
    ensures |r| == |s| + 1
  {
    if s == [] || cmp(x, s[0]) <= 0 then [x] + s
    else
      assert s == [s[0]] + s[1..];
      [s[0]] + Insert(x, s[1..], cmp)
  }

  /** The reference sort (insertion sort). */
  function Sort<T(==)>(s: seq<T>, cmp: Comparator<T>): (r: seq<T>)
    ensures multiset(r) == multiset(s)
    ensures |r| == |s|
  {
    if s == [] then []
    else
      assert s == [s[0]] + s[1..];
      Insert(s[0], Sort(s[1..], cmp), cmp)
  }

  /** Inserting into an ordered list keeps it ordered. */
  lemma {:induction false} InsertKeepsOrder<T(!new)>(x: T, s: seq<T>, cmp: Comparator<T>)
    requires Total(cmp) && SortedBy(s, cmp)
    ensures SortedBy(Insert(x, s, cmp), cmp)
    ensures s != [] ==> Insert(x, s, cmp)[0] == x || Insert(x, s, cmp)[0] == s[0]
  {
    if s != [] && cmp(x, s[0]) > 0 {
      var tail := s[1..];
      assert SortedBy(tail, cmp);
      InsertKeepsOrder(x, tail, cmp);
      var r := Insert(x, s, cmp);
      assert r == [s[0]] + Insert(x, tail, cmp);
      assert cmp(s[0], x) <= 0;
      if tail != [] {
        assert cmp(s[0], tail[0]) <= 0;
      }
    }
  }

  /** The reference sort orders its output by any total comparator. */
  lemma {:induction false} SortOrders<T(!new)>(s: seq<T>, cmp: Comparator<T>)
    requires Total(cmp)
    ensures SortedBy(Sort(s, cmp), cmp)
  {
    if s != [] {
      SortOrders(s[1..], cmp);
      InsertKeepsOrder(s[0], Sort(s[1..], cmp), cmp);
    }
  }

  /** `reverseComparator`: the comparator with its arguments swapped. */
  function ReverseComparator<T(!new)>(cmp: Comparator<T>): (r: Comparator<T>)
    ensures forall a, b :: r(a, b) == cmp(b, a)
  {
    (first: T, second: T) => cmp(second, first)
  }

  /** Swapping the arguments keeps a comparator total. */
  lemma ReverseKeepsTotal<T(!new)>(cmp: Comparator<T>)
    requires Total(cmp)
    ensures Total(ReverseComparator(cmp))
  {
    var rev := ReverseComparator(cmp);
    forall a, b
      ensures rev(a, b) <= 0 || rev(b, a) <= 0
    {
      assert cmp(b, a) <= 0 || cmp(a, b) <= 0;
    }
  }

  /** `compareBy(selector)`: 1, -1 or 0 as the first key is greater than,
      less than or equal to the second. */
  function CompareBy<T(!new)>(selector: T -> int): (r: Comparator<T>)
    ensures forall a, b :: (r(a, b) == 1 <==> selector(a) > selector(b))
    ensures forall a, b :: (r(a, b) == -1 <==> selector(a) < selector(b))
    ensures forall a, b :: (r(a, b) == 0 <==> selector(a) == selector(b))
  {
    (first: T, second: T) =>
      var aKey := selector(first);
      var bKey := selector(second);
      if aKey > bKey then 1 else if aKey < bKey then -1 else 0
  }

  /** A key comparator is total, and sorting by it sorts the keys. */
  lemma CompareByTotal<T(!new)>(selector: T -> int)
    ensures Total(CompareBy(selector))
  {
  }

  /** Which comparator a `SortingSequence` was built with: PHP's own
      ordering (`sort`/`rsort`) or a user comparator (`usort`). */
  datatype Ordering<!T> = PhpBuiltin | UserComparator(cmp: Comparator<T>)

  /** The comparator a `SortingSequence` sorts by. */
  function Chosen<T>(ordering: Ordering<T>, builtin: Comparator<T>): Comparator<T>
  {
    if ordering.UserComparator? then ordering.cmp else builtin
  }

  /** The `getIterator` of a `SortingSequence`: the drained upstream,
      reordered. `builtin` is PHP's standard comparison of two values, which
      the runtime supplies. Ascending uses the comparator, descending the
      comparator with its arguments swapped. */
  function SortingStage<T(==,!new)>(s: seq<T>, ordering: Ordering<T>, ascending: bool, builtin: Comparator<T>): (r: seq<T>)
    ensures multiset(r) == multiset(s) && |r| == |s|
  {
    var cmp := Chosen(ordering, builtin);
    if ascending then Sort(s, cmp) else Sort(s, ReverseComparator(cmp))
  }

  /** Under a total comparator the output is in order: non-decreasing when
      ascending, non-increasing when descending. */
  lemma SortingStageOrders<T(!new)>(s: seq<T>, ordering: Ordering<T>, ascending: bool, builtin: Comparator<T>)
    requires Total(Chosen(ordering, builtin))
    ensures ascending ==> SortedBy(SortingStage(s, ordering, ascending, builtin), Chosen(ordering, builtin))
    ensures !ascending ==>
              var r := SortingStage(s, ordering, ascending, builtin);
              forall i :: 0 <= i < |r| - 1 ==> Chosen(ordering, builtin)(r[i + 1], r[i]) <= 0
  {
    var cmp := Chosen(ordering, builtin);
    if ascending {
      SortOrders(s, cmp);
    } else {
      ReverseKeepsTotal(cmp);
      SortOrders(s, ReverseComparator(cmp));
    }
  }

  /** `sorted()` and `sortedDescending()`: PHP's own ordering. */
  lemma SortedNatural<T(!new)>(s: seq<T>, builtin: Comparator<T>)
    requires Total(builtin)
    ensures var up := SortingStage(s, PhpBuiltin, true, builtin);
            multiset(up) == multiset(s) && SortedBy(up, builtin)
    ensures var down := SortingStage(s, PhpBuiltin, false, builtin);
            multiset(down) == multiset(s)
            && forall i :: 0 <= i < |down| - 1 ==> builtin(down[i + 1], down[i]) <= 0
  {
    SortingStageOrders(s, PhpBuiltin, true, builtin);
    SortingStageOrders(s, PhpBuiltin, false, builtin);
  }

  /** `sortedBy(selector)` and `sortedByDescending(selector)`: keys in
      non-decreasing, respectively non-increasing, order. */
  lemma SortedByKeys<T(!new)>(s: seq<T>, selector: T -> int, builtin: Comparator<T>)
    ensures var up := SortingStage(s, UserComparator(CompareBy(selector)), true, builtin);
            multiset(up) == multiset(s)
            && forall i :: 0 <= i < |up| - 1 ==> selector(up[i]) <= selector(up[i + 1])
    ensures var down := SortingStage(s, UserComparator(CompareBy(selector)), false, builtin);
            multiset(down) == multiset(s)
            && forall i :: 0 <= i < |down| - 1 ==> selector(down[i]) >= selector(down[i + 1])
  {
    CompareByTotal(selector);
    SortingStageOrders(s, UserComparator(CompareBy(selector)), true, builtin);
    SortingStageOrders(s, UserComparator(CompareBy(selector)), false, builtin);
  }

  /** `sortedWith(cmp)` and `sortedWithDescending(cmp)`. */
  lemma SortedWithComparator<T(!new)>(s: seq<T>, cmp: Comparator<T>, builtin: Comparator<T>)
    requires Total(cmp)
    ensures var up := SortingStage(s, UserComparator(cmp), true, builtin);
            multiset(up) == multiset(s) && SortedBy(up, cmp)
    ensures var down := SortingStage(s, UserComparator(cmp), false, builtin);
            multiset(down) == multiset(s)
            && forall i :: 0 <= i < |down| - 1 ==> cmp(down[i + 1], down[i]) <= 0
  {
    SortingStageOrders(s, UserComparator(cmp), true, builtin);
    SortingStageOrders(s, UserComparator(cmp), false, builtin);
  }
}
