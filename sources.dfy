/** The external PHP `Iterator` objects the library consumes: an `ArrayIterator`
    over a list (restartable) or a `Generator` (single pass). Only the
    rewind/valid/current/key/next protocol is modelled. */
module Sources {
  import opened Outcomes

  class SourceIterator<T> {
    /** The values the iterator produces, in order. */
    const items: seq<T>
    /** An `ArrayIterator` can be rewound at any time; a `Generator` only before its first advance. */
    const restartable: bool
    /** The position of the element `current()` reports. */
    var pos: nat
    /** How many times `rewind()` and `next()` were called, so that callers can state their call pattern. */
    ghost var rewinds: nat
    ghost var advances: nat

    ghost predicate Valid()
      reads this
    {
      pos <= |items|
    }

    constructor (items: seq<T>, restartable: bool)
      ensures Valid()
      ensures this.items == items && this.restartable == restartable
      ensures pos == 0 && rewinds == 0 && advances == 0
    {
      this.items := items;
      this.restartable := restartable;
      pos := 0;
      rewinds := 0;
      advances := 0;
    }

    /** `rewind()`: a generator that has already advanced throws. */
    method Rewind() returns (o: Outcome)
      requires Valid()
      modifies this
      ensures Valid()
      ensures o.Pass? <==> restartable || old(pos) == 0
      ensures o.Fail? ==> o.error == NotRewindable && pos == old(pos)
      ensures o.Pass? ==> pos == 0
      ensures rewinds == old(rewinds) + 1 && advances == old(advances)
    {
      rewinds := rewinds + 1;
      if !restartable && pos > 0 {
        return Fail(NotRewindable);
      }
      pos := 0;
      return Pass;
    }

    /** `next()`: moves to the following element; past the end it stays put. */
    method Next()
      requires Valid()
      modifies this
      ensures Valid()
      ensures pos == if old(pos) < |items| then old(pos) + 1 else old(pos)
      ensures advances == old(advances) + 1 && rewinds == old(rewinds)
    {
      advances := advances + 1;
      if pos < |items| {
        pos := pos + 1;
      }
    }

    /** `valid()` */
    function HasCurrent(): bool
      reads this
    {
      pos < |items|
    }

    /** `current()`: `null` (here `None`) once the iterator is exhausted. */
    function Current(): (r: Option<T>)
      reads this
      ensures r.Some? <==> HasCurrent()
      ensures r.Some? ==> r.value == items[pos]
    {
      if pos < |items| then Some(items[pos]) else None
    }
  }

  /** PHP's `foreach` (or `iterator_to_array`) over an iterator: rewind(),
      then valid()/current()/next() until valid() is false. */
  method Drain<T>(source: SourceIterator<T>) returns (r: Result<seq<T>>)
    requires source.Valid()
    modifies source
    ensures source.Valid()
    ensures r.Ok? <==> source.restartable || old(source.pos) == 0
    ensures r.Ok? ==> r.value == source.items && !source.HasCurrent()
    ensures r.Err? ==> r.error == NotRewindable
  {
    var rewound := source.Rewind();
    if rewound.Fail? {
      return Err(rewound.error);
    }
    var seen := [];
    while source.HasCurrent()
      invariant source.Valid() && seen == source.items[..source.pos]
      decreases |source.items| - source.pos
    {
      seen := seen + [source.Current().value];
      source.Next();
    }
    return Ok(seen);
  }
}
