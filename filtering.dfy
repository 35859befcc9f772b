/** What `FilteringSequence` produces: the upstream elements whose
    `predicate(element, position)` equals `sendWhen`, in upstream order.
    The cursor step that computes it lives in the Iteration module. */
module Filtering {

  /** The reference definition, built from the back so that it grows by at
      most one element per upstream element, as the cursor does. */
  function Filtered<T>(s: seq<T>, pred: (T, int) -> bool, sendWhen: bool): (r: seq<T>)
    ensures |r| <= |s|
  {
    if s == [] then []
    else
      var init := Filtered(s[..|s| - 1], pred, sendWhen);
      if pred(s[|s| - 1], |s| - 1) == sendWhen then init + [s[|s| - 1]] else init
  }

  /** The positions of `s` that pass, in increasing order. */
  function Matches<T>(s: seq<T>, pred: (T, int) -> bool, sendWhen: bool): seq<nat>
  {
    if s == [] then []
    else
      var init := Matches(s[..|s| - 1], pred, sendWhen);
      if pred(s[|s| - 1], |s| - 1) == sendWhen then init + [|s| - 1] else init
  }

  /** One more upstream element adds itself to the output iff it passes. */
  lemma FilteredSnoc<T>(s: seq<T>, x: T, pred: (T, int) -> bool, sendWhen: bool)
    ensures Filtered(s + [x], pred, sendWhen)
         == Filtered(s, pred, sendWhen) + (if pred(x, |s|) == sendWhen then [x] else [])
  {
    assert (s + [x])[..|s|] == s;
  }

  /** Filtering a prefix gives a prefix of the output: the output can be produced lazily. */
  lemma {:induction false} FilteredPrefix<T>(s: seq<T>, n: nat, pred: (T, int) -> bool, sendWhen: bool)
    requires n <= |s|
    ensures var p := Filtered(s[..n], pred, sendWhen);
            var q := Filtered(s, pred, sendWhen);
            |p| <= |q| && p == q[..|p|]
    decreases |s| - n
  {
    if n < |s| {
      FilteredPrefix(s, n + 1, pred, sendWhen);
      assert s[..n + 1] == s[..n] + [s[n]];
      FilteredSnoc(s[..n], s[n], pred, sendWhen);
    } else {
      assert s[..n] == s;
    }
  }

  /** `Matches` lists exactly the passing positions, strictly increasing, and
      the output is the input read at those positions. */
  lemma {:induction false} MatchesCharacterization<T>(s: seq<T>, pred: (T, int) -> bool, sendWhen: bool)
    ensures var m := Matches(s, pred, sendWhen);
            (forall j :: 0 <= j < |m| ==> m[j] < |s| && pred(s[m[j]], m[j]) == sendWhen)
            && (forall i, j :: 0 <= i < j < |m| ==> m[i] < m[j])
            && (forall p :: 0 <= p < |s| && pred(s[p], p) == sendWhen ==> p in m)
  {
    if s != [] {
      var init := s[..|s| - 1];
      MatchesCharacterization(init, pred, sendWhen);
      var m0 := Matches(init, pred, sendWhen);
      assert forall j :: 0 <= j < |m0| ==> m0[j] < |init| && pred(init[m0[j]], m0[j]) == sendWhen;
      assert forall j :: 0 <= j < |m0| ==> s[m0[j]] == init[m0[j]];
      forall p | 0 <= p < |s| && pred(s[p], p) == sendWhen
        ensures p in Matches(s, pred, sendWhen)
      {
        if p < |s| - 1 {
          assert init[p] == s[p];
        }
      }
    }
  }

  /** The output is `s` read at the passing positions: every element that is
      kept passed the predicate at its own upstream position, and nothing
      that passed is lost or reordered. */
  lemma {:induction false} FilteredIsMatches<T>(s: seq<T>, pred: (T, int) -> bool, sendWhen: bool)
    ensures var m := Matches(s, pred, sendWhen);
            var r := Filtered(s, pred, sendWhen);
            |r| == |m| && (forall j :: 0 <= j < |m| ==> m[j] < |s| && r[j] == s[m[j]])
  {
    if s != [] {
      var init := s[..|s| - 1];
      FilteredIsMatches(init, pred, sendWhen);
      var m0 := Matches(init, pred, sendWhen);
      assert forall j :: 0 <= j < |m0| ==> s[m0[j]] == init[m0[j]];
    }
  }

  /** An element value is kept iff it occurs at a passing position. */
  lemma FilteredMembership<T>(s: seq<T>, x: T, pred: (T, int) -> bool, sendWhen: bool)
    ensures x in Filtered(s, pred, sendWhen)
        <==> exists p :: 0 <= p < |s| && s[p] == x && pred(s[p], p) == sendWhen
  {
    var m := Matches(s, pred, sendWhen);
    var r := Filtered(s, pred, sendWhen);
    MatchesCharacterization(s, pred, sendWhen);
    FilteredIsMatches(s, pred, sendWhen);
    if x in r {
      var j :| 0 <= j < |r| && r[j] == x;
      assert s[m[j]] == x;
    }
    if exists p :: 0 <= p < |s| && s[p] == x && pred(s[p], p) == sendWhen {
      var p :| 0 <= p < |s| && s[p] == x && pred(s[p], p) == sendWhen;
      assert p in m;
      var j :| 0 <= j < |m| && m[j] == p;
      assert r[j] == x;
    }
  }

  /** `filter` and `filterNot` with the same predicate split the input: their
      lengths add up to the input's. */
  lemma {:induction false} FilterAndFilterNotPartition<T>(s: seq<T>, pred: (T, int) -> bool)
    ensures |Filtered(s, pred, true)| + |Filtered(s, pred, false)| == |s|
  {
    if s != [] {
      FilterAndFilterNotPartition(s[..|s| - 1], pred);
    }
  }
}
