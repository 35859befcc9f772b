/** The sequences that may be iterated only once: `ConstrainedOnceSequence`
    (what `constrainOnce()` returns) and `TraversableSequence` (what
    `sequenceFrom()` returns for a one-shot Traversable). Both hand out their
    upstream on the first `getIterator()` and throw
    `SequenceAlreadyIteratedException` from then on. */
module OnceOnly {
  import opened Outcomes
  import opened Sources

  /** The sequence a `ConstrainedOnceSequence` wraps, seen through its
      `getIterator()`: it yields `elements`, or throws, or first drains an
      external iterator with `iterator_to_array` and then answers `after` of
      the items drained. Only the last one can answer differently each time. */
  datatype Upstream<!T> =
    | Yields(elements: seq<T>)
    | Raises(error: Error)
    | Drains(source: SourceIterator<T>, after: seq<T> -> Result<seq<T>>)

  /** The external iterator an upstream drains, if any. */
  function DrainedBy<T>(previous: Option<Upstream<T>>): set<object>
  {
    if previous.Some? && previous.value.Drains? then {previous.value.source} else {}
  }

  class ConstrainedOnceSequence<T> {
    /** The wrapped sequence; `null` once it has been handed out. */
    var previous: Option<Upstream<T>>

    constructor (previous: Upstream<T>)
      ensures this.previous == Some(previous)
    {
      this.previous := Some(previous);
    }

    /** `getIterator()`: the first successful call hands out the upstream's
        iterator and drops the upstream; any later call throws. When the
        upstream throws, the reference is kept, so a later call asks again. */
    method GetIterator() returns (r: Result<seq<T>>)
      requires previous.Some? && previous.value.Drains? ==> previous.value.source.Valid()
      modifies this, DrainedBy(previous)
      ensures old(previous).None? ==> r == Err(AlreadyIterated(this)) && previous.None?
      ensures old(previous).Some? && old(previous).value.Yields? ==>
                r == Ok(old(previous).value.elements) && previous.None?
      ensures old(previous).Some? && old(previous).value.Raises? ==>
                r == Err(old(previous).value.error) && previous == old(previous)
      ensures old(previous).Some? && old(previous).value.Drains? ==>
                var source := old(previous).value.source;
                source.Valid()
                && (if source.restartable || old(source.pos) == 0
                    then r == old(previous).value.after(source.items) && !source.HasCurrent()
                    else r == Err(NotRewindable))
                && previous == if r.Ok? then None else old(previous)
    {
      if previous.None? {
        return Err(AlreadyIterated(this));
      }
      var upstream := previous.value;
      var answer: Result<seq<T>>;
      if upstream.Drains? {
        var drained := Drain(upstream.source);
        if drained.Err? {
          return Err(drained.error);
        }
        answer := upstream.after(drained.value);
      } else if upstream.Raises? {
        answer := Err(upstream.error);
      } else {
        answer := Ok(upstream.elements);
      }
      if answer.Err? {
        return Err(answer.error);
      }
      previous := None;
      return Ok(answer.value);
    }
  }

  /** A sequence as `constrainOnce()` sees it: already constrained, or any other. */
  datatype SequenceRef<!T> = Once(constrained: ConstrainedOnceSequence<T>) | Plain(upstream: Upstream<T>)

  /** `constrainOnce()`: a constrained sequence is returned as it is, any other
      one is wrapped; so the result is always constrained. */
  method ConstrainOnce<T>(s: SequenceRef<T>) returns (r: SequenceRef<T>)
    ensures r.Once?
    ensures s.Once? ==> r == s
    ensures s.Plain? ==> fresh(r.constrained) && r.constrained.previous == Some(s.upstream)
  {
    if s.Once? {
      return s;
    }
    var c := new ConstrainedOnceSequence(s.upstream);
    return Once(c);
  }

  /** Constraining twice is constraining once: the second call returns the
      very sequence the first one built. */
  method ConstrainTwice<T>(u: Upstream<T>) returns (first: SequenceRef<T>, second: SequenceRef<T>)
    ensures first.Once? && second == first
  {
    first := ConstrainOnce(Plain(u));
    second := ConstrainOnce(first);
  }

  /** A constrained sequence yields its upstream's elements once, then
      refuses, naming itself. */
  method UseConstrainedTwice<T>(elements: seq<T>) returns (first: Result<seq<T>>, second: Result<seq<T>>)
    ensures first == Ok(elements)
    ensures second.Err? && second.error.AlreadyIterated?
  {
    var c := new ConstrainedOnceSequence(Yields(elements));
    first := c.GetIterator();
    second := c.GetIterator();
  }

  /** An upstream failure does not use up a constrained sequence: the second
      call reaches the upstream again. */
  method UseFailingConstrainedTwice<T>(error: Error) returns (first: Result<seq<T>>, second: Result<seq<T>>)
    ensures first == Err(error) && second == Err(error)
  {
    var c := new ConstrainedOnceSequence<T>(Raises(error));
    first := c.GetIterator();
    second := c.GetIterator();
  }

  class TraversableSequence<T> {
    /** The Traversable handed to `sequenceFrom()`; `null` once handed out. */
    var source: SourceIterator?<T>

    constructor (source: SourceIterator<T>)
      ensures this.source == source
    {
      this.source := source;
    }

    /** `getIterator()`: hands out the very Traversable it was built from,
        once; any later call throws. */
    method GetIterator() returns (r: Result<SourceIterator<T>>)
      modifies this
      ensures source == null
      ensures old(source) == null ==> r == Err(AlreadyIterated(this))
      ensures old(source) != null ==> r == Ok(old(source))
    {
      if source == null {
        return Err(AlreadyIterated(this));
      }
      var s := source;
      source := null;
      return Ok(s);
    }
  }

  /** `sequenceFrom(new ArrayIterator($items))` collected twice: the items,
      then the already-iterated error. */
  method CollectTraversableTwice<T>(items: seq<T>, restartable: bool)
    returns (first: Result<seq<T>>, second: Result<seq<T>>)
    ensures first == Ok(items)
    ensures second.Err? && second.error.AlreadyIterated?
  {
    var source := new SourceIterator(items, restartable);
    var t := new TraversableSequence(source);
    var it := t.GetIterator();
    first := Drain(it.value);
    var again := t.GetIterator();
    second := Err(again.error);
  }
}
