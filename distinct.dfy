/** `DistinctSequence`: the upstream elements whose selected key has not
    been seen before, in upstream order. `distinct()` is the same stage with
    the element itself as its key. */
module Distinct {
  import opened Filtering

  /** The keys of `s`, in order. */
  function Keys<T, K>(s: seq<T>, key: T -> K): (r: seq<K>)
    ensures |r| == |s|
    ensures forall i :: 0 <= i < |s| ==> r[i] == key(s[i])
  {
    if s == [] then [] else Keys(s[..|s| - 1], key) + [key(s[|s| - 1])]
  }

  /** The reference definition: the last element is kept iff its key does not
      occur among the earlier elements' keys. */
  function DistinctBy<T, K(==)>(s: seq<T>, key: T -> K): (r: seq<T>)
    ensures |r| <= |s|
  {
    if s == [] then []
    else
      var init := s[..|s| - 1];
      var keep := key(s[|s| - 1]) !in Keys(init, key);
      DistinctBy(init, key) + if keep then [s[|s| - 1]] else []
  }

  /** The generator body of `getIterator`: a list of the keys seen so far,
      and each element yielded when its key is not yet on the list. */
  method Distinct<T, K(==)>(s: seq<T>, key: T -> K) returns (r: seq<T>)
    ensures r == DistinctBy(s, key)
  {
    var seenKeys: seq<K> := [];
    r := [];
    var i := 0;
    while i < |s|
      invariant 0 <= i <= |s|
      invariant r == DistinctBy(s[..i], key)
      invariant seenKeys == Keys(r, key)
    {
      var element := s[i];
      var k := key(element);
      assert s[..i + 1][..i] == s[..i];
      assert DistinctBy(s[..i + 1], key)
          == DistinctBy(s[..i], key) + if k !in Keys(s[..i], key) then [element] else [];
      DistinctKeysSame(s[..i], key, k);
      if k !in seenKeys {
        r := r + [element];
        seenKeys := seenKeys + [k];
        assert Keys(r, key) == Keys(r[..|r| - 1], key) + [k];
      }
      i := i + 1;
    }
    assert s[..i] == s;
  }

  /** No two kept elements share a key. */
  lemma {:induction false} DistinctKeysUnique<T, K>(s: seq<T>, key: T -> K)
    ensures var r := DistinctBy(s, key);
            forall i, j :: 0 <= i < j < |r| ==> key(r[i]) != key(r[j])
  {
    if s != [] {
      var init := s[..|s| - 1];
      DistinctKeysUnique(init, key);
      var r0 := DistinctBy(init, key);
      var r := DistinctBy(s, key);
      if key(s[|s| - 1]) !in Keys(init, key) {
        assert r == r0 + [s[|s| - 1]];
        forall i | 0 <= i < |r0|
          ensures key(r[i]) != key(r[|r0|])
        {
          assert Keys(r0, key)[i] == key(r0[i]);
          assert key(r0[i]) in Keys(r0, key);
          DistinctKeysSame(init, key, key(r0[i]));
          assert r[i] == r0[i];
          assert r[|r0|] == s[|s| - 1];
        }
      }
    }
  }

  /** The kept elements carry exactly the keys of the input. */
  lemma {:induction false} DistinctKeysSame<T, K>(s: seq<T>, key: T -> K, k: K)
    ensures k in Keys(DistinctBy(s, key), key) <==> k in Keys(s, key)
  {
    if s != [] {
      var init := s[..|s| - 1];
      var x := s[|s| - 1];
      DistinctKeysSame(init, key, k);
      var r0 := DistinctBy(init, key);
      var r := DistinctBy(s, key);
      assert Keys(s, key) == Keys(init, key) + [key(x)];
      if key(x) !in Keys(init, key) {
        assert r == r0 + [x];
        assert r[..|r| - 1] == r0;
        assert Keys(r, key) == Keys(r0, key) + [key(x)];
      } else {
        assert r == r0;
      }
    }
  }

  /** `distinctBy` is a filter: an element is kept iff no earlier element has
      the same key, i.e. it is the first occurrence of its key. */
  lemma {:induction false} DistinctIsFirstOccurrence<T, K>(s: seq<T>, key: T -> K)
    ensures DistinctBy(s, key) == Filtered(s, FirstOfKey(s, key), true)
  {
    FirstOccurrencePrefix(s, |s|, key);
    assert s[..|s|] == s;
  }

  /** The predicate `DistinctBy` filters with: no earlier position of `s`
      holds the same key. */
  function FirstOfKey<T, K(==)>(s: seq<T>, key: T -> K): (T, int) -> bool
  {
    (x: T, i: int) => 0 <= i <= |s| ==> key(x) !in Keys(s[..i], key)
  }

  lemma {:induction false} FirstOccurrencePrefix<T, K>(s: seq<T>, n: nat, key: T -> K)
    requires n <= |s|
    ensures DistinctBy(s[..n], key) == Filtered(s[..n], FirstOfKey(s, key), true)
  {
    if n > 0 {
      FirstOccurrencePrefix(s, n - 1, key);
      var p := s[..n];
      assert p[..n - 1] == s[..n - 1];
      assert p[n - 1] == s[n - 1];
    }
  }

  /** `distinct()`: the element is its own key, so the output holds no
      duplicates and the same set of values as the input. */
  lemma DistinctValues<T>(s: seq<T>)
    ensures var r := DistinctBy(s, (x: T) => x);
            (forall i, j :: 0 <= i < j < |r| ==> r[i] != r[j])
            && (forall x :: x in r <==> x in s)
  {
    var id := (x: T) => x;
    DistinctKeysUnique(s, id);
    var r := DistinctBy(s, id);
    forall x
      ensures x in r <==> x in s
    {
      assert Keys(r, id) == r;
      assert Keys(s, id) == s;
      DistinctKeysSame(s, id, x);
    }
  }
}
