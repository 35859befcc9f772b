/** `AssociateOperations`: `associate`, `associateBy`, `associateWith` and
    `groupBy`, which build a PHP array. A PHP array is modelled as a list of
    key/value entries: keys are unique, reading a key finds its entry, and
    assigning a key replaces the value in place or, for a new key, appends an
    entry at the end. */
module Associating {
  import opened Outcomes
  import opened Distinct

  /** The keys of a PHP array, in order. */
  function KeyList<K, V>(a: seq<(K, V)>): (r: seq<K>)
    ensures |r| == |a|
  {
    if a == [] then [] else [a[0].0] + KeyList(a[1..])
  }

  /** Entry `i` of the key list is the key of entry `i`. */
  lemma {:induction false} KeyListAt<K, V>(a: seq<(K, V)>, i: int)
    requires 0 <= i < |a|
    ensures KeyList(a)[i] == a[i].0
  {
    if i > 0 {
      KeyListAt(a[1..], i - 1);
    }
  }

  /** No key occurs twice. */
  predicate UniqueKeys<K(==), V>(a: seq<(K, V)>)
  {
    forall i, j :: 0 <= i < j < |a| ==> a[i].0 != a[j].0
  }

  /** `$a[$k]`: the value of the first entry with key `k`. */
  function Lookup<K(==), V>(a: seq<(K, V)>, k: K): (r: Option<V>)
    ensures r.Some? <==> k in KeyList(a)
  {
    if a == [] then None
    else if a[0].0 == k then Some(a[0].1)
    else
      assert KeyList(a) == [a[0].0] + KeyList(a[1..]);
      Lookup(a[1..], k)
  }

  /** `$a[$k] = $v` */
  function Assign<K(==), V>(a: seq<(K, V)>, k: K, v: V): (r: seq<(K, V)>)
    ensures KeyList(r) == if k in KeyList(a) then KeyList(a) else KeyList(a) + [k]
    ensures Lookup(r, k) == Some(v)
  {
    if a == [] then [(k, v)]
    else if a[0].0 == k then
      KeyListCons((k, v), a[1..]);
      KeyListCons(a[0], a[1..]);
      assert a == [a[0]] + a[1..];
      [(k, v)] + a[1..]
    else
      var rest := Assign(a[1..], k, v);
      KeyListCons(a[0], rest);
      KeyListCons(a[0], a[1..]);
      assert a == [a[0]] + a[1..];
      assert ([a[0]] + rest)[1..] == rest;
      [a[0]] + rest
  }

  lemma KeyListCons<K, V>(x: (K, V), rest: seq<(K, V)>)
    ensures KeyList([x] + rest) == [x.0] + KeyList(rest)
  {
    assert ([x] + rest)[1..] == rest;
  }

  /** Assigning one key leaves every other key's value alone. */
  lemma {:induction false} AssignLookup<K, V>(a: seq<(K, V)>, k: K, v: V, other: K)
    ensures Lookup(Assign(a, k, v), other) == if other == k then Some(v) else Lookup(a, other)
  {
    if a != [] && a[0].0 != k {
      AssignLookup(a[1..], k, v, other);
      assert Assign(a, k, v)[1..] == Assign(a[1..], k, v);
    }
  }

  /** Keys stay unique under assignment. */
  lemma AssignKeepsKeysUnique<K, V>(a: seq<(K, V)>, k: K, v: V)
    requires UniqueKeys(a)
    ensures UniqueKeys(Assign(a, k, v))
  {
    var r := Assign(a, k, v);
    forall i, j | 0 <= i < j < |r|
      ensures r[i].0 != r[j].0
    {
      KeyListAt(r, i);
      KeyListAt(r, j);
      KeyListAt(a, i);
      if j < |a| {
        KeyListAt(a, j);
      }
    }
  }

  /** The value the last entry with key `k` carries: the one a sequence of
      assignments leaves behind. */
  function LastValue<K(==), V>(pairs: seq<(K, V)>, k: K): Option<V>
  {
    if pairs == [] then None
    else if pairs[|pairs| - 1].0 == k then Some(pairs[|pairs| - 1].1)
    else LastValue(pairs[..|pairs| - 1], k)
  }

  /** The array the `foreach` of `associate*` builds from its key/value
      pairs: one assignment per element, in order. */
  function Associated<K(==), V>(pairs: seq<(K, V)>): seq<(K, V)>
  {
    if pairs == [] then []
    else
      var last := pairs[|pairs| - 1];
      Assign(Associated(pairs[..|pairs| - 1]), last.0, last.1)
  }

  /** Last write wins: a key maps to the value of its last pair. */
  lemma {:induction false} AssociatedLookup<K, V>(pairs: seq<(K, V)>, k: K)
    ensures Lookup(Associated(pairs), k) == LastValue(pairs, k)
  {
    if pairs != [] {
      var last := pairs[|pairs| - 1];
      AssociatedLookup(pairs[..|pairs| - 1], k);
      AssignLookup(Associated(pairs[..|pairs| - 1]), last.0, last.1, k);
    }
  }

  /** The array has each key once. */
  lemma {:induction false} AssociatedKeysUnique<K, V>(pairs: seq<(K, V)>)
    ensures UniqueKeys(Associated(pairs))
  {
    if pairs != [] {
      var last := pairs[|pairs| - 1];
      AssociatedKeysUnique(pairs[..|pairs| - 1]);
      AssignKeepsKeysUnique(Associated(pairs[..|pairs| - 1]), last.0, last.1);
    }
  }

  function Itself<K>(k: K): K
  {
    k
  }

  /** The keys appear in the order of their first occurrence among the
      pairs: the distinct keys of the input. */
  lemma {:induction false} AssociatedKeyOrder<K, V>(pairs: seq<(K, V)>)
    ensures KeyList(Associated(pairs)) == DistinctBy(KeyList(pairs), Itself)
  {
    if pairs != [] {
      var init := pairs[..|pairs| - 1];
      var (k, v) := pairs[|pairs| - 1];
      AssociatedKeyOrder(init);
      assert pairs == init + [(k, v)];
      KeyOrderStep(Associated(init), init, k, v);
    }
  }

  /** One assignment keeps the key list equal to the distinct keys. */
  lemma KeyOrderStep<K, V>(a0: seq<(K, V)>, init: seq<(K, V)>, k: K, v: V)
    requires KeyList(a0) == DistinctBy(KeyList(init), Itself)
    ensures KeyList(Assign(a0, k, v)) == DistinctBy(KeyList(init + [(k, v)]), Itself)
  {
    var d := DistinctBy(KeyList(init), Itself);
    KeyListSnoc(init, (k, v));
    DistinctSnoc(KeyList(init), k);
    if k in d {
      assert d + [] == d;
    }
  }

  lemma {:induction false} KeyListSnoc<K, V>(a: seq<(K, V)>, x: (K, V))
    ensures KeyList(a + [x]) == KeyList(a) + [x.0]
  {
    if a != [] {
      assert (a + [x])[1..] == a[1..] + [x];
      KeyListSnoc(a[1..], x);
    }
  }

  /** One more key joins the distinct keys iff it is not among them yet. */
  lemma DistinctSnoc<K>(keys: seq<K>, k: K)
    ensures var d := DistinctBy(keys, Itself);
            DistinctBy(keys + [k], Itself) == d + if k in d then [] else [k]
  {
    var d := DistinctBy(keys, Itself);
    assert (keys + [k])[..|keys|] == keys;
    assert Keys(keys, Itself) == keys;
    assert Keys(d, Itself) == d;
    DistinctKeysSame(keys, Itself, k);
  }

  /** The foreach loop of `associate*` over prepared key/value pairs. */
  method AssociatePairs<K(==), V>(pairs: seq<(K, V)>) returns (result: seq<(K, V)>)
    ensures result == Associated(pairs)
  {
    result := [];
    var i := 0;
    while i < |pairs|
      invariant 0 <= i <= |pairs| && result == Associated(pairs[..i])
    {
      assert pairs[..i + 1][..i] == pairs[..i];
      var (key, value) := pairs[i];
      result := Assign(result, key, value);
      i := i + 1;
    }
    assert pairs[..i] == pairs;
  }

  /** The pairs a selector produces, one per element. */
  function PairsOf<T, K, V>(s: seq<T>, transform: T -> (K, V)): (r: seq<(K, V)>)
    ensures |r| == |s| && forall i :: 0 <= i < |s| ==> r[i] == transform(s[i])
  {
    if s == [] then [] else PairsOf(s[..|s| - 1], transform) + [transform(s[|s| - 1])]
  }

  /** `associate(transform)`: the transform gives each element's key and value. */
  method Associate<T, K(==), V>(s: seq<T>, transform: T -> (K, V)) returns (result: seq<(K, V)>)
    ensures result == Associated(PairsOf(s, transform))
    ensures KeyList(result) == DistinctBy(KeyList(PairsOf(s, transform)), Itself)
    ensures UniqueKeys(result)
    ensures forall k :: Lookup(result, k) == LastValue(PairsOf(s, transform), k)
  {
    var pairs := PairsOf(s, transform);
    result := AssociatePairs(pairs);
    AssociatedKeysUnique(pairs);
    AssociatedKeyOrder(pairs);
    forall k
      ensures Lookup(result, k) == LastValue(pairs, k)
    {
      AssociatedLookup(pairs, k);
    }
  }

  /** `associateBy(keySelector, valueSelector)`: the key and the value come
      from two selectors; without a value selector the value is the element,
      which is `valueSelector == Itself`. */
  method AssociateBy<T, K(==), V>(s: seq<T>, keySelector: T -> K, valueSelector: T -> V)
    returns (result: seq<(K, V)>)
    ensures result == Associated(PairsOf(s, (x: T) => (keySelector(x), valueSelector(x))))
  {
    result := AssociatePairs(PairsOf(s, (x: T) => (keySelector(x), valueSelector(x))));
  }

  /** `associateWith(valueSelector)`: the element is its own key. */
  method AssociateWith<T(==), V>(s: seq<T>, valueSelector: T -> V) returns (result: seq<(T, V)>)
    ensures result == Associated(PairsOf(s, (x: T) => (x, valueSelector(x))))
  {
    result := AssociatePairs(PairsOf(s, (x: T) => (x, valueSelector(x))));
  }

  /** The values of the elements whose key is `k`, in order. */
  function GroupOf<T, K(==), V>(s: seq<T>, keySelector: T -> K, valueTransform: T -> V, k: K): seq<V>
  {
    if s == [] then []
    else
      var x := s[|s| - 1];
      GroupOf(s[..|s| - 1], keySelector, valueTransform, k) + if keySelector(x) == k then [valueTransform(x)] else []
  }

  /** One step of `groupBy`'s loop: create the key's list when missing, then push. */
  function Push<K(==), V>(groups: seq<(K, seq<V>)>, k: K, v: V): seq<(K, seq<V>)>
  {
    var g := if Lookup(groups, k).None? then Assign(groups, k, []) else groups;
    Assign(g, k, Lookup(g, k).value + [v])
  }

  /** The array `groupBy` builds. */
  function Grouped<T, K(==), V>(s: seq<T>, keySelector: T -> K, valueTransform: T -> V): seq<(K, seq<V>)>
  {
    if s == [] then []
    else
      var x := s[|s| - 1];
      Push(Grouped(s[..|s| - 1], keySelector, valueTransform), keySelector(x), valueTransform(x))
  }

  lemma {:induction false} GroupOfAbsent<T, K, V>(s: seq<T>, keySelector: T -> K, valueTransform: T -> V, k: K)
    requires k !in Keys(s, keySelector)
    ensures GroupOf(s, keySelector, valueTransform, k) == []
  {
    if s != [] {
      assert Keys(s[..|s| - 1], keySelector) == Keys(s, keySelector)[..|s| - 1];
      GroupOfAbsent(s[..|s| - 1], keySelector, valueTransform, k);
    }
  }

  /** A key selected for some element maps to the values of exactly those
      elements, in order; any other key is absent. */
  lemma {:induction false} GroupedLookup<T, K, V>(s: seq<T>, keySelector: T -> K, valueTransform: T -> V, k: K)
    ensures k in Keys(s, keySelector) ==>
              Lookup(Grouped(s, keySelector, valueTransform), k) == Some(GroupOf(s, keySelector, valueTransform, k))
    ensures k !in Keys(s, keySelector) ==> Lookup(Grouped(s, keySelector, valueTransform), k).None?
  {
    if s == [] {
      assert Keys(s, keySelector) == [];
      assert Grouped(s, keySelector, valueTransform) == [];
    } else {
      var init := s[..|s| - 1];
      var x := s[|s| - 1];
      GroupedLookup(init, keySelector, valueTransform, k);
      var kx := keySelector(x);
      var g0 := Grouped(init, keySelector, valueTransform);
      assert Grouped(s, keySelector, valueTransform) == Push(g0, kx, valueTransform(x));
      PushLookup(g0, kx, valueTransform(x), k);
      var keys0 := Keys(init, keySelector);
      var keys := Keys(s, keySelector);
      assert keys == keys0 + [kx];
      var found := Lookup(Grouped(s, keySelector, valueTransform), k);
      if kx != k {
        assert found == Lookup(g0, k);
        assert k in keys <==> k in keys0;
        assert GroupOf(s, keySelector, valueTransform, k) == GroupOf(init, keySelector, valueTransform, k) + [];
        assert GroupOf(s, keySelector, valueTransform, k) == GroupOf(init, keySelector, valueTransform, k);
        assert k in keys ==> found == Some(GroupOf(s, keySelector, valueTransform, k));
      } else {
        assert k in keys;
        var group := GroupOf(s, keySelector, valueTransform, k);
        assert group == GroupOf(init, keySelector, valueTransform, k) + [valueTransform(x)];
        if k !in keys0 {
          GroupOfAbsent(init, keySelector, valueTransform, k);
          assert found == Some([valueTransform(x)]);
        } else {
          assert found == Some(Lookup(g0, k).value + [valueTransform(x)]);
        }
        assert found == Some(group);
        assert k in keys ==> found == Some(GroupOf(s, keySelector, valueTransform, k));
      }
    }
  }

  /** Pushing onto one key's list extends that list, or starts it, and leaves
      the other keys alone. */
  lemma PushLookup<K, V>(groups: seq<(K, seq<V>)>, k: K, v: V, other: K)
    ensures Lookup(Push(groups, k, v), other)
         == if other != k then Lookup(groups, other)
            else if Lookup(groups, k).Some? then Some(Lookup(groups, k).value + [v])
            else Some([v])
  {
    var g := if Lookup(groups, k).None? then Assign(groups, k, []) else groups;
    AssignLookup(groups, k, [], other);
    if Lookup(groups, k).None? {
      assert Lookup(g, k) == Some([]);
      assert [] + [v] == [v];
    }
    AssignLookup(g, k, Lookup(g, k).value + [v], other);
  }

  /** The array has each key once. */
  lemma {:induction false} GroupedKeysUnique<T, K, V>(s: seq<T>, keySelector: T -> K, valueTransform: T -> V)
    ensures UniqueKeys(Grouped(s, keySelector, valueTransform))
  {
    if s != [] {
      var x := s[|s| - 1];
      var g0 := Grouped(s[..|s| - 1], keySelector, valueTransform);
      GroupedKeysUnique(s[..|s| - 1], keySelector, valueTransform);
      var kx := keySelector(x);
      AssignKeepsKeysUnique(g0, kx, []);
      var g := if Lookup(g0, kx).None? then Assign(g0, kx, []) else g0;
      AssignKeepsKeysUnique(g, kx, Lookup(g, kx).value + [valueTransform(x)]);
    }
  }

  /** The total length of the lists of a PHP array of lists. */
  function Size<K, V>(a: seq<(K, seq<V>)>): nat
  {
    if a == [] then 0 else |a[0].1| + Size(a[1..])
  }

  lemma {:induction false} SizeAssign<K, V>(a: seq<(K, seq<V>)>, k: K, l: seq<V>)
    requires UniqueKeys(a)
    ensures Size(Assign(a, k, l)) + (if Lookup(a, k).Some? then |Lookup(a, k).value| else 0) == Size(a) + |l|
  {
    if a != [] && a[0].0 != k {
      SizeAssign(a[1..], k, l);
      assert Assign(a, k, l)[1..] == Assign(a[1..], k, l);
    } else if a != [] {
      assert ([(k, l)] + a[1..])[1..] == a[1..];
    }
  }

  /** Every element lands in exactly one group. */
  lemma {:induction false} GroupSizes<T, K, V>(s: seq<T>, keySelector: T -> K, valueTransform: T -> V)
    ensures Size(Grouped(s, keySelector, valueTransform)) == |s|
  {
    if s != [] {
      var x := s[|s| - 1];
      var g0 := Grouped(s[..|s| - 1], keySelector, valueTransform);
      GroupSizes(s[..|s| - 1], keySelector, valueTransform);
      GroupedKeysUnique(s[..|s| - 1], keySelector, valueTransform);
      var kx := keySelector(x);
      SizeAssign(g0, kx, []);
      AssignKeepsKeysUnique(g0, kx, []);
      var g := if Lookup(g0, kx).None? then Assign(g0, kx, []) else g0;
      SizeAssign(g, kx, Lookup(g, kx).value + [valueTransform(x)]);
    }
  }

  /** `groupBy(keySelector, valueTransform)`; without a transform the value
      is the element, which is `valueTransform == Itself`. */
  method GroupBy<T, K(==), V>(s: seq<T>, keySelector: T -> K, valueTransform: T -> V)
    returns (result: seq<(K, seq<V>)>)
    ensures result == Grouped(s, keySelector, valueTransform)
  {
    result := [];
    var i := 0;
    while i < |s|
      invariant 0 <= i <= |s| && result == Grouped(s[..i], keySelector, valueTransform)
    {
      assert s[..i + 1][..i] == s[..i];
      var key := keySelector(s[i]);
      if Lookup(result, key).None? {
        result := Assign(result, key, []);
      }
      var value := valueTransform(s[i]);
      result := Assign(result, key, Lookup(result, key).value + [value]);
      i := i + 1;
    }
    assert s[..i] == s;
  }
}
