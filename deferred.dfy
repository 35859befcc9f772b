/** `DeferredIterator`: an Iterator that asks its supplier for the real
    iterator only when one of the five Iterator methods is first called,
    forgets the supplier, and from then on forwards every call to it. */
module Deferred {
  import opened Outcomes
  import opened Sources

  /** What the supplier closure builds when it is called: a fresh iterator
      over `items` (a generator when `restartable` is false). */
  datatype Supplier<T> = Supplier(items: seq<T>, restartable: bool)

  class DeferredIterator<T> {
    /** The real iterator once it has been supplied. */
    var inner: SourceIterator?<T>
    /** The supplier until it has been called. */
    var supplier: Option<Supplier<T>>
    /** The supplier handed to the constructor. */
    ghost const Supplied: Supplier<T>
    /** How many times the supplier was called. */
    ghost var supplies: nat
    ghost var Repr: set<object>

    ghost predicate Valid()
      reads this, Repr
    {
      this in Repr
      && (inner == null ==> supplier == Some(Supplied) && supplies == 0 && Repr == {this})
      && (inner != null ==>
            supplier == None && supplies == 1 && Repr == {this, inner}
            && inner.Valid() && inner.items == Supplied.items
            && inner.restartable == Supplied.restartable)
    }

    /** The position the deferred inner reports: that of the real inner,
        or the start while none has been supplied. */
    ghost function Pos(): nat
      reads this, Repr
      requires Valid()
      ensures Pos() <= |Supplied.items|
    {
      if inner == null then 0 else inner.pos
    }

    /** Constructing does not call the supplier. */
    constructor (supplier: Supplier<T>)
      ensures Valid() && Supplied == supplier
      ensures inner == null && supplies == 0 && Pos() == 0
    {
      inner := null;
      this.supplier := Some(supplier);
      Supplied := supplier;
      supplies := 0;
      Repr := {this};
    }

    /** The private `inner()`: calls the supplier the first time, at most once overall. */
    method Force() returns (it: SourceIterator<T>)
      requires Valid()
      modifies this`inner, this`supplier, this`supplies, this`Repr
      ensures fresh(Repr - old(Repr))
      ensures Valid() && it == inner && supplies == 1 && supplier == None
      ensures Pos() == old(Pos())
      ensures old(inner) != null ==> it == old(inner)
      ensures old(inner) == null ==> fresh(it) && it.rewinds == 0 && it.advances == 0
    {
      if inner == null {
        var s := supplier.value;
        inner := new SourceIterator(s.items, s.restartable);
        supplier := None;
        supplies := supplies + 1;
        Repr := {this, inner};
      }
      it := inner;
    }

    /** `current()`: the element at the forwarded position, `null` past the end. */
    method Current() returns (r: Option<T>)
      requires Valid()
      modifies this`inner, this`supplier, this`supplies, this`Repr
      ensures fresh(Repr - old(Repr))
      ensures Valid() && supplies == 1 && Pos() == old(Pos())
      ensures r == if Pos() < |Supplied.items| then Some(Supplied.items[Pos()]) else None
    {
      var it := Force();
      r := it.Current();
    }

    /** `next()` */
    method Next()
      requires Valid()
      modifies Repr, this`inner, this`supplier, this`supplies, this`Repr
      ensures fresh(Repr - old(Repr))
      ensures Valid() && supplies == 1
      ensures Pos() == if old(Pos()) < |Supplied.items| then old(Pos()) + 1 else old(Pos())
    {
      var it := Force();
      it.Next();
    }

    /** `key()`: the position while valid, `null` past the end. */
    method Key() returns (k: Option<nat>)
      requires Valid()
      modifies this`inner, this`supplier, this`supplies, this`Repr
      ensures fresh(Repr - old(Repr))
      ensures Valid() && supplies == 1 && Pos() == old(Pos())
      ensures k == if Pos() < |Supplied.items| then Some(Pos()) else None
    {
      var it := Force();
      k := if it.HasCurrent() then Some(it.pos) else None;
    }

    /** `valid()` */
    method IsValid() returns (b: bool)
      requires Valid()
      modifies this`inner, this`supplier, this`supplies, this`Repr
      ensures fresh(Repr - old(Repr))
      ensures Valid() && supplies == 1 && Pos() == old(Pos())
      ensures b <==> Pos() < |Supplied.items|
    {
      var it := Force();
      b := it.HasCurrent();
    }

    /** `rewind()`: a freshly supplied inner can always be rewound; a
        supplied generator that has advanced cannot. */
    method Rewind() returns (o: Outcome)
      requires Valid()
      modifies Repr, this`inner, this`supplier, this`supplies, this`Repr
      ensures fresh(Repr - old(Repr))
      ensures Valid() && supplies == 1
      ensures o.Pass? <==> Supplied.restartable || old(Pos()) == 0
      ensures o.Pass? ==> Pos() == 0
      ensures o.Fail? ==> o.error == NotRewindable && Pos() == old(Pos())
    {
      var it := Force();
      o := it.Rewind();
    }
  }

  /** `foreach` over a deferred iterator that has not been touched yet: the
      supplied inner's values, in order, with the supplier called once. */
  method DrainDeferred<T>(supplier: Supplier<T>) returns (r: Result<seq<T>>, ghost supplies: nat)
    ensures r == Ok(supplier.items) && supplies == 1
  {
    var d := new DeferredIterator(supplier);
    var rewound := d.Rewind();
    var seen := [];
    while true
      invariant d.Valid() && d.Supplied == supplier && fresh(d.Repr) && d.supplies == 1
      invariant d.Pos() == |seen| && seen == supplier.items[..d.Pos()]
      decreases |supplier.items| - d.Pos()
    {
      var valid := d.IsValid();
      if !valid {
        break;
      }
      var current := d.Current();
      seen := seen + [current.value];
      d.Next();
    }
    assert seen == supplier.items;
    r := Ok(seen);
    supplies := d.supplies;
  }
}
