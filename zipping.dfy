/** `ZippingSequence` (`zip`) and `ZippingWithNextSequence` (`zipWithNext`):
    both pull their upstreams through cursors with `hasNext`/`pluckNext`. */
module Zipping {
  import opened Outcomes
  import opened Sources
  import opened Cursors
  import opened Iterations

  /** The reference definition of `zip`: position by position, up to the
      shorter side. */
  function Zipped<A, B, R>(a: seq<A>, b: seq<B>, transform: (A, B) -> R): (r: seq<R>)
    ensures |r| == Min(|a|, |b|)
    ensures forall i :: 0 <= i < |r| ==> r[i] == transform(a[i], b[i])
  {
    if a == [] || b == [] then [] else [transform(a[0], b[0])] + Zipped(a[1..], b[1..], transform)
  }

  /** The default transform: the pair `[a, b]`. */
  function Pair<A, B>(x: A, y: B): (A, B)
  {
    (x, y)
  }

  /** Zipping into pairs loses nothing but the longer side's tail: the
      first components are the first input, the second components the
      second input, each cut to the shorter length. */
  lemma {:induction false} ZippedPairsUnzip<A, B>(a: seq<A>, b: seq<B>)
    ensures var r := Zipped(a, b, Pair);
            |r| == Min(|a|, |b|)
            && (forall i :: 0 <= i < |r| ==> r[i].0 == a[i] && r[i].1 == b[i])
            && (|a| <= |b| ==> Firsts(r) == a)
            && (|b| <= |a| ==> Seconds(r) == b)
  {
    var r := Zipped(a, b, Pair);
    FirstsIndex(r);
    SecondsIndex(r);
  }

  function Firsts<A, B>(r: seq<(A, B)>): seq<A>
  {
    if r == [] then [] else [r[0].0] + Firsts(r[1..])
  }

  function Seconds<A, B>(r: seq<(A, B)>): seq<B>
  {
    if r == [] then [] else [r[0].1] + Seconds(r[1..])
  }

  lemma {:induction false} FirstsIndex<A, B>(r: seq<(A, B)>)
    ensures |Firsts(r)| == |r| && forall i :: 0 <= i < |r| ==> Firsts(r)[i] == r[i].0
  {
    if r != [] {
      FirstsIndex(r[1..]);
    }
  }

  lemma {:induction false} SecondsIndex<A, B>(r: seq<(A, B)>)
    ensures |Seconds(r)| == |r| && forall i :: 0 <= i < |r| ==> Seconds(r)[i] == r[i].1
  {
    if r != [] {
      SecondsIndex(r[1..]);
    }
  }

  /** The generator body of `ZippingSequence::getIterator` over two
      upstream iterators: pluck one from each side while both `hasNext`.
      `otherProbes` counts the `hasNext` calls on the second side, which
      the `&&` skips once the first side is used up. */
  method Zip<A, B, R>(a: seq<A>, b: seq<B>, transform: (A, B) -> R)
    returns (r: Result<seq<R>>, ghost otherProbes: nat)
    ensures r == Ok(Zipped(a, b, transform))
    ensures otherProbes == Min(|a|, |b| + 1)
  {
    var previous, sa := Open(a, false);
    var other, sb := Open(b, false);
    r, otherProbes := ZipLoop(previous, sa, a, other, sb, b, transform);
  }

  /** The loop of the generator, over two cursors opened at their start. */
  method ZipLoop<A, B, R>(previous: Iteration<A>, ghost sa: SourceIterator<A>, ghost a: seq<A>,
                          other: Iteration<B>, ghost sb: SourceIterator<B>, ghost b: seq<B>,
                          transform: (A, B) -> R)
    returns (r: Result<seq<R>>, ghost otherProbes: nat)
    requires Reading(previous, sa, a, 0) && Reading(other, sb, b, 0)
    requires {previous, sa} !! {other, sb}
    modifies previous.Repr, other.Repr
    ensures r == Ok(Zipped(a, b, transform))
    ensures otherProbes == Min(|a|, |b| + 1)
  {
    var out: seq<R> := [];
    ghost var k := 0;
    otherProbes := 0;
    while true
      invariant Reading(previous, sa, a, k) && Reading(other, sb, b, k)
      invariant {previous, sa} !! {other, sb}
      invariant out == Zipped(a[..k], b[..k], transform)
      invariant otherProbes == k
      decreases |a| - k
    {
      var done; ghost var probed;
      done, out, probed := ZipRound(previous, sa, a, other, sb, b, k, out, transform);
      if probed {
        otherProbes := otherProbes + 1;
      }
      if done {
        r := Ok(out);
        return;
      }
      k := k + 1;
    }
  }

  /** One round of the loop together with its output: either both sides have
      one more element and one more result is appended, or the loop ends with
      the whole zipped sequence. */
  method ZipRound<A, B, R>(previous: Iteration<A>, ghost sa: SourceIterator<A>, ghost a: seq<A>,
                           other: Iteration<B>, ghost sb: SourceIterator<B>, ghost b: seq<B>, ghost k: nat,
                           out: seq<R>, transform: (A, B) -> R)
    returns (done: bool, out': seq<R>, ghost probed: bool)
    requires Reading(previous, sa, a, k) && Reading(other, sb, b, k)
    requires {previous, sa} !! {other, sb}
    requires out == Zipped(a[..k], b[..k], transform)
    modifies previous.Repr, other.Repr
    ensures probed <==> k < |a|
    ensures done ==> k == Min(|a|, |b|) && out' == Zipped(a, b, transform)
    ensures !done ==> k < |a| && k < |b| && out' == Zipped(a[..k + 1], b[..k + 1], transform)
                      && Reading(previous, sa, a, k + 1) && Reading(other, sb, b, k + 1)
  {
    var pair;
    pair, probed := ZipStep(previous, sa, a, other, sb, b, k);
    if pair.None? {
      ZippedPrefixes(a, b, transform);
      return true, out, probed;
    }
    ZippedSnoc(a, b, k, transform);
    return false, out + [transform(pair.value.0, pair.value.1)], probed;
  }

  /** One round of the loop condition and body: `hasNext` on the first side,
      then, only if it has one, on the second; and a pluck from each when both do. */
  method ZipStep<A, B>(previous: Iteration<A>, ghost sa: SourceIterator<A>, ghost a: seq<A>,
                       other: Iteration<B>, ghost sb: SourceIterator<B>, ghost b: seq<B>, ghost k: nat)
    returns (pair: Option<(A, B)>, ghost probedOther: bool)
    requires Reading(previous, sa, a, k) && Reading(other, sb, b, k)
    requires {previous, sa} !! {other, sb}
    modifies previous.Repr, other.Repr
    ensures probedOther <==> k < |a|
    ensures pair.Some? <==> k < |a| && k < |b|
    ensures pair.Some? ==>
              pair.value == (a[k], b[k]) && Reading(previous, sa, a, k + 1) && Reading(other, sb, b, k + 1)
    ensures pair.None? ==> Reading(previous, sa, a, k) && Reading(other, sb, b, k)
  {
    var hasPrevious := ProbeBeside(previous, sa, a, k, other, sb, b, k);
    if !hasPrevious {
      return None, false;
    }
    var hasOther := ProbeBeside(other, sb, b, k, previous, sa, a, k);
    if !hasOther {
      return None, true;
    }
    var x := PluckBeside(previous, sa, a, k, other, sb, b, k);
    var y := PluckBeside(other, sb, b, k, previous, sa, a, k + 1);
    return Some((x, y)), true;
  }

  /** `hasNext` on one cursor leaves a separate cursor as it was. */
  method ProbeBeside<T, U>(cursor: Iteration<T>, ghost src: SourceIterator<T>, ghost items: seq<T>, ghost k: nat,
                           beside: Iteration<U>, ghost srcU: SourceIterator<U>, ghost itemsU: seq<U>, ghost kU: nat)
    returns (b: bool)
    requires Reading(cursor, src, items, k) && Reading(beside, srcU, itemsU, kU)
    requires {cursor, src} !! {beside, srcU}
    modifies cursor.Repr
    ensures Reading(cursor, src, items, k) && Reading(beside, srcU, itemsU, kU)
    ensures b <==> k < |items|
  {
    b := Probe(cursor, src, items, k);
  }

  /** `pluckNext` on one cursor leaves a separate cursor as it was. */
  method PluckBeside<T, U>(cursor: Iteration<T>, ghost src: SourceIterator<T>, ghost items: seq<T>, ghost k: nat,
                           beside: Iteration<U>, ghost srcU: SourceIterator<U>, ghost itemsU: seq<U>, ghost kU: nat)
    returns (v: T)
    requires Reading(cursor, src, items, k) && Reading(beside, srcU, itemsU, kU) && k < |items|
    requires {cursor, src} !! {beside, srcU}
    modifies cursor.Repr
    ensures Reading(cursor, src, items, k + 1) && Reading(beside, srcU, itemsU, kU)
    ensures v == items[k]
  {
    v := Pluck(cursor, src, items, k);
  }

  /** One more position on both sides adds one output. */
  lemma ZippedSnoc<A, B, R>(a: seq<A>, b: seq<B>, n: nat, transform: (A, B) -> R)
    requires n < |a| && n < |b|
    ensures Zipped(a[..n + 1], b[..n + 1], transform)
         == Zipped(a[..n], b[..n], transform) + [transform(a[n], b[n])]
  {
    var l := Zipped(a[..n + 1], b[..n + 1], transform);
    var r := Zipped(a[..n], b[..n], transform) + [transform(a[n], b[n])];
    assert |l| == |r|;
    forall i | 0 <= i < |l|
      ensures l[i] == r[i]
    {
      assert a[..n + 1][i] == a[i] && b[..n + 1][i] == b[i];
      if i < n {
        assert a[..n][i] == a[i] && b[..n][i] == b[i];
      }
    }
  }

  /** Cutting both sides to the shorter length does not change the result. */
  lemma ZippedPrefixes<A, B, R>(a: seq<A>, b: seq<B>, transform: (A, B) -> R)
    ensures Zipped(a[..Min(|a|, |b|)], b[..Min(|a|, |b|)], transform) == Zipped(a, b, transform)
  {
    var n := Min(|a|, |b|);
    var l := Zipped(a[..n], b[..n], transform);
    var r := Zipped(a, b, transform);
    assert |l| == |r|;
    forall i | 0 <= i < |l|
      ensures l[i] == r[i]
    {
      assert a[..n][i] == a[i] && b[..n][i] == b[i];
    }
  }

  /** The reference definition of `zipWithNext`: each element with its successor. */
  function Adjacent<T, R>(s: seq<T>, transform: (T, T) -> R): (r: seq<R>)
    ensures |r| == Max(|s| - 1, 0)
    ensures forall i :: 0 <= i < |r| ==> r[i] == transform(s[i], s[i + 1])
  {
    if |s| < 2 then [] else [transform(s[0], s[1])] + Adjacent(s[1..], transform)
  }

  /** With the pair transform, neighbouring pairs overlap in one element and
      the first components followed by the last element rebuild the input. */
  lemma AdjacentPairsChain<T>(s: seq<T>)
    requires |s| >= 1
    ensures var r := Adjacent(s, Pair);
            (forall i :: 0 <= i < |r| - 1 ==> r[i].1 == r[i + 1].0)
            && Firsts(r) + [s[|s| - 1]] == s
  {
    var r := Adjacent(s, Pair);
    FirstsIndex(r);
    var rebuilt := Firsts(r) + [s[|s| - 1]];
    assert |rebuilt| == |s|;
    forall i | 0 <= i < |s|
      ensures rebuilt[i] == s[i]
    {
      if i < |s| - 1 {
        assert r[i] == Pair(s[i], s[i + 1]);
        assert rebuilt[i] == r[i].0;
      } else {
        assert rebuilt[i] == s[|s| - 1];
      }
    }
  }

  /** The generator body of `ZippingWithNextSequence::getIterator`: nothing
      for an empty upstream; otherwise keep the last element plucked and
      yield it with each following one. */
  method ZipWithNext<T, R>(s: seq<T>, transform: (T, T) -> R) returns (r: Result<seq<R>>)
    ensures r == Ok(Adjacent(s, transform))
  {
    var iteration, source := Open(s, false);
    var has := Probe(iteration, source, s, 0);
    if !has {
      return Ok([]);
    }
    var current := Pluck(iteration, source, s, 0);
    var plucked: nat := 1;
    var out: seq<R> := [];
    while true
      invariant 1 <= plucked <= |s| && Reading(iteration, source, s, plucked)
      invariant current == s[plucked - 1]
      invariant out == Adjacent(s[..plucked], transform)
      decreases |s| - plucked
    {
      var hasNext := Probe(iteration, source, s, plucked);
      if !hasNext {
        break;
      }
      var next := Pluck(iteration, source, s, plucked);
      AdjacentSnoc(s, plucked, transform);
      out := out + [transform(current, next)];
      current := next;
      plucked := plucked + 1;
    }
    assert s[..plucked] == s;
    return Ok(out);
  }

  /** One more element adds its pair with the element before it. */
  lemma AdjacentSnoc<T, R>(s: seq<T>, n: nat, transform: (T, T) -> R)
    requires 1 <= n < |s|
    ensures Adjacent(s[..n + 1], transform) == Adjacent(s[..n], transform) + [transform(s[n - 1], s[n])]
  {
    var p := Adjacent(s[..n + 1], transform);
    var q := Adjacent(s[..n], transform) + [transform(s[n - 1], s[n])];
    assert |p| == |q|;
    forall i | 0 <= i < |p|
      ensures p[i] == q[i]
    {
      assert s[..n + 1][i] == s[i] && s[..n + 1][i + 1] == s[i + 1];
      if i < n - 1 {
        assert s[..n][i] == s[i] && s[..n][i + 1] == s[i + 1];
      }
    }
  }
}
