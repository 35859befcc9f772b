/** `Iterations`: the factories that build cursors and the `convert` helper
    that turns any Traversable into a cursor; and the PHP `foreach`
    protocol (rewind, then valid/current/next until valid is false) that
    every consumer of a cursor runs. */
module Iterations {
  import opened Outcomes
  import opened Sources
  import opened Filtering
  import opened Cursors

  /** The Traversable values `convert` can be handed. */
  datatype Traversable<T> =
    | /** an IteratorAggregate (every Sequence is one) whose getIterator() returns `inner` */
      AggregateOf(inner: Traversable<T>)
    | /** an object that already is an Iteration */
      CursorOf(cursor: Iteration<T>)
    | /** any other Iterator: an ArrayIterator, a Generator */
      IteratorOf(source: SourceIterator<T>)
    | /** a built-in Traversable that is neither an Iterator nor an IteratorAggregate */
      OtherTraversable

  /** What `convert` ends up looking at once every aggregate is unwrapped. */
  function Unwrapped<T>(t: Traversable<T>): (u: Traversable<T>)
    ensures !u.AggregateOf?
  {
    if t.AggregateOf? then Unwrapped(t.inner) else t
  }

  /** The cursor or iterator a Traversable leads to is in a usable state. */
  ghost predicate Usable<T>(t: Traversable<T>)
    reads if Unwrapped(t).CursorOf? then {Unwrapped(t).cursor} + Unwrapped(t).cursor.Repr else {}
    reads if Unwrapped(t).IteratorOf? then {Unwrapped(t).source} else {}
  {
    var u := Unwrapped(t);
    (u.CursorOf? ==> u.cursor.Valid())
    && (u.IteratorOf? ==> u.source.Valid())
  }

  /** Iterations::build: a root cursor running `script`, with no upstream. */
  method Build<T>(script: int -> seq<BuilderCall<T>>) returns (cursor: Iteration<T>)
    ensures fresh(cursor) && cursor.Valid()
    ensures cursor.kind == Computing && cursor.previous == null && cursor.Upstream == null
    ensures cursor.builder == Some(Root(script))
    ensures cursor.state == NotReady && cursor.nextIndex == -1
  {
    cursor := new Iteration.Rooted(script);
  }

  /** Iterations::convert */
  method Convert<T>(source: Traversable<T>) returns (r: Result<Iteration<T>>)
    requires Usable(source)
    ensures Unwrapped(source).CursorOf? ==> r == Ok(Unwrapped(source).cursor)
    ensures Unwrapped(source).IteratorOf? ==>
              r.Ok? && fresh(r.value) && r.value.Valid() && r.value.Coherent()
              && r.value.kind == Adapter && r.value.Src == Unwrapped(source).source
              && r.value.source == Unwrapped(source).source && !r.value.started
              && r.value.state == NotReady && r.value.nextIndex == -1
              && r.value.Whole == Unwrapped(source).source.items && r.value.Plucked == []
              && r.value.Repr == {r.value, Unwrapped(source).source}
              && (Unwrapped(source).source.restartable || Unwrapped(source).source.pos == 0
                  ==> r.value.Healthy())
    ensures Unwrapped(source).OtherTraversable? ==> r == Err(TypeMismatch)
    decreases source
  {
    if source.AggregateOf? {
      r := Convert(source.inner);
    } else if source.CursorOf? {
      r := Ok(source.cursor);
    } else if source.IteratorOf? {
      var adapter := new Iteration.FromIterator(source.source);
      r := Ok(adapter);
    } else {
      // new IteratorIteration($source) with a value that is not an Iterator
      r := Err(TypeMismatch);
    }
  }

  /** Iterations::buildLinked with FilteringSequence's step: the converted
      upstream linked to the step. Only a finite, coherent upstream can be linked. */
  method BuildLinked<T>(previous: Traversable<T>, pred: (T, int) -> bool, sendWhen: bool)
    returns (r: Result<Iteration<T>>)
    requires Usable(previous)
    requires Unwrapped(previous).CursorOf? ==>
               Unwrapped(previous).cursor.Coherent() && Unwrapped(previous).cursor.Finite
    ensures Unwrapped(previous).OtherTraversable? ==> r == Err(TypeMismatch)
    ensures !Unwrapped(previous).OtherTraversable? ==>
              r.Ok? && fresh(r.value) && r.value.Valid() && r.value.Coherent()
              && r.value.kind == Computing && r.value.builder == Some(Filter(pred, sendWhen))
              && r.value.previous != null && r.value.state == NotReady && r.value.nextIndex == -1
              && r.value.Whole == Filtered(r.value.previous.Whole[r.value.Base..], pred, sendWhen)
              && r.value.Repr == {r.value} + r.value.previous.Repr
    ensures Unwrapped(previous).CursorOf? && r.Ok? ==> r.value.previous == Unwrapped(previous).cursor
    ensures Unwrapped(previous).IteratorOf? && r.Ok? ==>
              r.value.Repr == {r.value, r.value.previous, Unwrapped(previous).source}
    ensures Unwrapped(previous).IteratorOf? && r.Ok? ==>
              r.value.previous != null && fresh(r.value.previous)
              && r.value.Whole == Filtered(Unwrapped(previous).source.items, pred, sendWhen)
              && (Unwrapped(previous).source.restartable || Unwrapped(previous).source.pos == 0
                  ==> r.value.Healthy())
  {
    assert Unwrapped(previous).CursorOf? ==> Unwrapped(previous).cursor.Valid();
    var converted := Convert(previous);
    if converted.Err? {
      return Err(converted.error);
    }
    var cursor := new Iteration.Linked(pred, sendWhen, converted.value);
    return Ok(cursor);
  }

  /** PHP's `foreach` over a cursor: rewind(), then valid()/current()/next()
      until valid() is false. Returns the values the loop body sees. */
  method ForEach<T>(cursor: Iteration<T>) returns (r: Result<seq<T>>)
    requires cursor.Valid() && cursor.Coherent() && cursor.Finite
    modifies cursor.Repr
    ensures cursor.Valid() && cursor.Coherent()
    ensures r.Ok? ==> old(cursor.Plucked) + r.value == cursor.Whole
    ensures old(cursor.nextIndex > 0 || (cursor.nextIndex == 0 && cursor.state != Ready)) ==>
              r == Err(NotRewindable)
    ensures old(cursor.Healthy()
                && (cursor.nextIndex == -1 || (cursor.nextIndex == 0 && cursor.state == Ready)))
            ==> r.Ok?
  {
    var rewound := cursor.IteratorRewind();
    if rewound.Fail? {
      return Err(rewound.error);
    }
    var seen := [];
    ghost var healthy := cursor.Healthy();
    while true
      invariant cursor.Valid() && cursor.Coherent()
      invariant cursor.Plucked == old(cursor.Plucked) + seen
      invariant healthy ==> cursor.Healthy()
      decreases |cursor.Whole| - |cursor.Plucked|
    {
      var visited := Visit(cursor);
      if visited.Err? {
        return Err(visited.error);
      }
      if visited.value.None? {
        break;
      }
      seen := seen + [visited.value.value];
    }
    return Ok(seen);
  }

  /** One turn of `foreach` after the rewind: `valid()`, and when it holds,
      `current()` for the loop body and `next()`. */
  method Visit<T>(cursor: Iteration<T>) returns (r: Result<Option<T>>)
    requires cursor.Valid() && cursor.Coherent() && cursor.Finite
    modifies cursor.Repr
    ensures cursor.Valid() && cursor.Coherent()
    ensures r.Ok? && r.value.Some? ==> cursor.Plucked == old(cursor.Plucked) + [r.value.value]
    ensures !(r.Ok? && r.value.Some?) ==> cursor.Plucked == old(cursor.Plucked)
    ensures r == Ok(None) ==> cursor.Plucked == cursor.Whole
    ensures old(cursor.Healthy()) ==> r.Ok? && cursor.Healthy()
  {
    var valid := cursor.HasNext();
    if valid.Err? {
      return Err(valid.error);
    }
    if !valid.value {
      return Ok(None);
    }
    var current := cursor.IteratorCurrent();
    var next := cursor.IteratorNext();
    return Ok(Some(current.value));
  }

  /** A fresh adapter over an iterator that can still be rewound yields
      exactly the iterator's values, in order. */
  method IterateSource<T>(items: seq<T>, restartable: bool) returns (r: Result<seq<T>>)
    ensures r == Ok(items)
  {
    var source := new SourceIterator(items, restartable);
    var converted := Convert(IteratorOf(source));
    r := ForEach(converted.value);
  }

  /** `filter` over a list, iterated to the end: exactly the elements whose
      verdict at their position equals `sendWhen`. */
  method FilterSource<T>(items: seq<T>, restartable: bool, pred: (T, int) -> bool, sendWhen: bool)
    returns (r: Result<seq<T>>)
    ensures r == Ok(Filtered(items, pred, sendWhen))
  {
    var source := new SourceIterator(items, restartable);
    var linked := BuildLinked(IteratorOf(source), pred, sendWhen);
    assert items[0..] == items;
    r := ForEach(linked.value);
  }

  /** Two stacked filters: the second sees the first one's output and its positions. */
  method FilterFiltered<T>(items: seq<T>, p: (T, int) -> bool, q: (T, int) -> bool)
    returns (r: Result<seq<T>>)
    ensures r == Ok(Filtered(Filtered(items, p, true), q, true))
  {
    var source := new SourceIterator(items, true);
    var inner := BuildLinked(IteratorOf(source), p, true);
    var outer := BuildLinked(CursorOf(inner.value), q, true);
    assert items[0..] == items;
    assert Filtered(items, p, true)[0..] == Filtered(items, p, true);
    r := ForEach(outer.value);
  }

  /** A healthy adapter cursor over `src` that has handed out the first `k`
      of `items` with `pluckNext`. */
  ghost predicate Reading<T>(cursor: Iteration<T>, src: SourceIterator<T>, items: seq<T>, k: nat)
    reads cursor, cursor.Repr
  {
    cursor.Valid() && cursor.Coherent() && cursor.Healthy()
    && cursor.Repr == {cursor, src} && cursor.Whole == items
    && k <= |items| && cursor.Plucked == items[..k]
  }

  /** `hasNext()` on a healthy adapter: true exactly while elements remain. */
  method Probe<T>(cursor: Iteration<T>, ghost src: SourceIterator<T>, ghost items: seq<T>, ghost k: nat)
    returns (b: bool)
    requires Reading(cursor, src, items, k)
    modifies cursor.Repr
    ensures Reading(cursor, src, items, k)
    ensures b <==> k < |items|
  {
    var has := cursor.HasNext();
    b := has.value;
  }

  /** `pluckNext()` on a healthy adapter with elements left: the next element. */
  method Pluck<T>(cursor: Iteration<T>, ghost src: SourceIterator<T>, ghost items: seq<T>, ghost k: nat)
    returns (v: T)
    requires Reading(cursor, src, items, k) && k < |items|
    modifies cursor.Repr
    ensures Reading(cursor, src, items, k + 1)
    ensures v == items[k]
    ensures cursor.state == NotReady && cursor.nextIndex >= 0
  {
    var plucked := cursor.PluckNext();
    v := plucked.value;
    assert items[..k + 1] == items[..k] + [v];
  }

  /** The method that zip, zipWithNext, ifEmpty, windowed and reduce call on
      `Iterations`, which declares only `build`, `buildLinked` and a private
      `convert`. */
  const FromTraversable: string := "Iterations::fromTraversable"

  /** `Iterations::fromTraversable(source)` as written: the method is not
      declared, so the call raises whatever `source` is. */
  function FromTraversableAsWritten<T>(source: Traversable<T>): (r: Result<Iteration<T>>)
    ensures r.Err? && r.error.UndefinedMethod?
  {
    Err(UndefinedMethod(FromTraversable))
  }

  /** A fresh iterator opened with `fromTraversable` as written raises before
      anything is pulled; opened with `convert`, as the callers intend, it
      yields the iterator's values. */
  method OpenAsWrittenVersusConvert<T>(items: seq<T>, restartable: bool)
    returns (asWritten: Result<seq<T>>, corrected: Result<seq<T>>)
    ensures asWritten == Err(UndefinedMethod(FromTraversable))
    ensures corrected == Ok(items)
  {
    var source := new SourceIterator(items, restartable);
    var attempt := FromTraversableAsWritten(IteratorOf(source));
    asWritten := Err(attempt.error);
    corrected := IterateSource(items, restartable);
  }

  /** `Iterations::fromTraversable` read as `convert`, over a fresh iterator:
      a cursor that has handed out nothing yet. */
  method Open<T>(items: seq<T>, restartable: bool) returns (cursor: Iteration<T>, src: SourceIterator<T>)
    ensures fresh(cursor) && fresh(src) && Reading(cursor, src, items, 0)
  {
    src := new SourceIterator(items, restartable);
    var converted := Convert(IteratorOf(src));
    cursor := converted.value;
  }
}
