/** The pull cursor behind every lazy stage: `AbstractIteration` with its two
    concrete kinds, `IteratorIteration` (an adapter over an external PHP
    Iterator) and `ComputingIteration` (a cursor driven by a step callback,
    either a root or linked to an upstream cursor).

    The only linked step callback in the library is the one of
    `FilteringSequence`, so a linked cursor here always runs that step; a
    root cursor runs an arbitrary callback, modelled as the list of builder
    calls it makes for a given index. */
module Cursors {
  import opened Outcomes
  import opened Sources
  import opened Filtering

  /** STATE_NOT_READY, STATE_READY, STATE_CLOSED, STATE_FAILED */
  datatype State = NotReady | Ready | Closed | Failed

  /** Which concrete class a cursor is. */
  datatype Kind = Adapter | Computing

  /** One call a root step callback makes on the cursor it is handed
      (`IterationBuilder`), or an exception it throws. */
  datatype BuilderCall<T> = SetNext(element: T) | Skipping | Close | Throw

  /** How one turn of the filter's loop ended. */
  datatype ScanResult = Published | Skipped | Drained

  /** The callable a `ComputingIteration` holds. */
  datatype Builder<!T> =
    | /** `Iterations::build`: called with the cursor only; given the cursor's index it makes these calls */
      Root(script: int -> seq<BuilderCall<T>>)
    | /** `FilteringSequence`'s step: called with the upstream cursor and the cursor */
      Filter(pred: (T, int) -> bool, sendWhen: bool)

  /** The state a root step leaves: its calls apply in order and a throw ends it. */
  function StateAfter<T>(calls: seq<BuilderCall<T>>, st: State): State
  {
    if calls == [] || calls[0].Throw? then st
    else StateAfter(calls[1..], Apply(calls[0], st))
  }

  /** setNext makes the cursor READY, close makes it CLOSED, skipping leaves the state alone. */
  function Apply<T>(call: BuilderCall<T>, st: State): State
  {
    match call
    case SetNext(_) => Ready
    case Close => Closed
    case _ => st
  }

  predicate Throws<T>(calls: seq<BuilderCall<T>>)
  {
    exists i :: 0 <= i < |calls| && calls[i].Throw?
  }

  /** A step that neither publishes a value nor closes leaves its cursor as
      it found it: in FAILED, when `tryComputeNext` called it. */
  lemma {:induction false} InertStepKeepsState<T>(calls: seq<BuilderCall<T>>, st: State)
    requires forall i :: 0 <= i < |calls| ==> calls[i].Skipping? || calls[i].Throw?
    ensures StateAfter(calls, st) == st
  {
    if calls != [] && calls[0].Skipping? {
      InertStepKeepsState(calls[1..], st);
    }
  }

  /** The last value published before any throw makes the cursor READY. */
  lemma {:induction false} PublishingStepIsReady<T>(calls: seq<BuilderCall<T>>, k: nat, st: State)
    requires k < |calls| && calls[k].SetNext?
    requires forall i :: 0 <= i < k ==> !calls[i].Throw?
    requires forall i :: k < i < |calls| ==> calls[i].Skipping? || calls[i].SetNext?
    ensures StateAfter(calls, st) == Ready
    decreases k
  {
    if k == 0 {
      ReadyStaysReady(calls[1..]);
    } else {
      PublishingStepIsReady(calls[1..], k - 1, Apply(calls[0], st));
    }
  }

  lemma {:induction false} ReadyStaysReady<T>(calls: seq<BuilderCall<T>>)
    requires forall i :: 0 <= i < |calls| ==> calls[i].Skipping? || calls[i].SetNext?
    ensures StateAfter(calls, Ready) == Ready
  {
    if calls != [] {
      ReadyStaysReady(calls[1..]);
    }
  }

  /** The filter's output over a prefix of the upstream is a prefix of its
      output over the whole upstream. */
  lemma FilteredPrefixOf<T>(w: seq<T>, p: seq<T>, base: nat, pred: (T, int) -> bool, sendWhen: bool)
    requires |p| <= |w| && p == w[..|p|] && base <= |p|
    ensures var e := Filtered(p[base..], pred, sendWhen);
            var f := Filtered(w[base..], pred, sendWhen);
            |e| <= |f| && e == f[..|e|]
  {
    assert p[base..] == w[base..][..|p| - base];
    FilteredPrefix(w[base..], |p| - base, pred, sendWhen);
  }

  /** Pulling one more upstream element extends the filter's output by that
      element iff its verdict at its position equals `sendWhen`. */
  lemma FilteredPulled<T>(before: seq<T>, element: T, base: nat, pred: (T, int) -> bool, sendWhen: bool)
    requires base <= |before|
    ensures Filtered((before + [element])[base..], pred, sendWhen)
         == Filtered(before[base..], pred, sendWhen)
            + if pred(element, |before| - base) == sendWhen then [element] else []
  {
    assert (before + [element])[base..] == before[base..] + [element];
    FilteredSnoc(before[base..], element, pred, sendWhen);
  }

  class Iteration<T> {
    var state: State
    /** The pending value; `null` in the source becomes `None`. */
    var nextValue: Option<T>
    var nextIndex: int
    const kind: Kind
    /** IteratorIteration: the wrapped iterator (nulled when closed) and whether it was rewound. */
    var source: SourceIterator?<T>
    var started: bool
    /** ComputingIteration: the step callback and the upstream cursor (both nulled when closed). */
    var builder: Option<Builder<T>>
    var previous: Iteration?<T>

    /** The objects this cursor owns: itself, its source or its upstream chain. */
    ghost const Repr: set<object>
    ghost const depth: nat
    /** The iterator an adapter was built over, the step and upstream a computing cursor was built with. */
    ghost const Src: SourceIterator?<T>
    ghost const Step: Builder<T>
    ghost const Upstream: Iteration?<T>
    /** How many upstream elements had been plucked when a filter was linked. */
    ghost const Base: nat
    /** Adapters and filters over them produce a finite, known sequence, `Whole`. */
    ghost const Finite: bool
    ghost const Whole: seq<T>
    /** Everything published with setNext so far, and everything handed out by pluckNext. */
    ghost var Emitted: seq<T>
    ghost var Plucked: seq<T>
    /** Set when the step found the input used up and closed. */
    ghost var Exhausted: bool
    /** How many times the step callback ran. */
    ghost var steps: nat

    /** The structural invariant of every cursor. */
    ghost predicate Valid()
      reads this, Repr
      decreases Repr, 0
    {
      this in Repr
      && nextIndex >= -1
      && (state == Ready ==> nextValue.Some?)
      && (builder.Some? ==> builder.value == Step)
      && (kind == Adapter ==>
            Src != null && Repr == {this, Src} && Src.Valid()
            && (source == null || source == Src)
            && previous == null && Upstream == null && builder.None?
            && depth == 0 && Finite && Whole == Src.items)
      && (kind == Computing ==>
            source == null && Src == null
            && (Upstream == null ==>
                  Step.Root? && previous == null && Repr == {this} && depth == 0 && !Finite)
            && (Upstream != null ==>
                  Step.Filter?
                  && (previous == null || previous == Upstream)
                  && (builder.Some? <==> previous != null)
                  && Upstream in Repr && Repr == {this} + Upstream.Repr && this !in Upstream.Repr
                  && Upstream.depth < depth
                  && Upstream.Valid() && Upstream.Finite && Finite
                  && Base <= |Upstream.Whole|
                  && Whole == Filtered(Upstream.Whole[Base..], Step.pred, Step.sendWhen)
                  && (previous != null ==> Upstream.CoherentIn(Upstream.state, Upstream.nextIndex))))
    }

    /** What a finite cursor has produced agrees with what it must produce,
        read as if the state were `st` and the index `idx`. */
    ghost predicate CoherentIn(st: State, idx: int)
      requires Valid()
      reads this, Repr
      decreases Repr, 1
    {
      Finite ==>
        |Plucked| <= |Emitted| <= |Whole|
        && Emitted == Whole[..|Emitted|]
        && Plucked == Emitted[..|Plucked|]
        && (st == Ready ==> nextValue.Some? && Emitted == Plucked + [nextValue.value])
        && (st == NotReady ==> Emitted == Plucked)
        && (Exhausted <==> st == Closed)
        && (Exhausted ==> Emitted == Whole && Plucked == Whole)
        && (kind == Adapter ==>
              (!started ==> Emitted == [] && source == Src && idx == -1)
              && (started && (st == NotReady || st == Ready) ==>
                    source == Src && |Emitted| == Src.pos + 1 && idx == Src.pos))
        && (Upstream != null && previous != null ==>
              Base <= |Upstream.Plucked|
              && Emitted == Filtered(Upstream.Plucked[Base..], Step.pred, Step.sendWhen)
              && (st == NotReady || st == Ready ==> idx == |Upstream.Plucked| - Base - 1))
    }

    ghost predicate Coherent()
      requires Valid()
      reads this, Repr
    {
      CoherentIn(state, nextIndex)
    }

    /** The shape `tryComputeNext` hands to the step: FAILED, index already advanced. */
    ghost predicate StepCoherent()
      requires Valid()
      reads this, Repr
    {
      CoherentIn(NotReady, nextIndex - 1)
    }

    /** A finite cursor that cannot fail any more: not FAILED, an unstarted
        adapter's iterator can still be rewound, and a live upstream is healthy too. */
    ghost predicate HealthyIn(st: State)
      requires Valid()
      reads this, Repr
      decreases Repr
    {
      Finite && st != Failed
      && (kind == Adapter && !started ==> Src.restartable || Src.pos == 0)
      && (kind == Computing && st != Closed ==> builder.Some?)
      && (previous != null ==> Upstream.HealthyIn(Upstream.state))
    }

    ghost predicate Healthy()
      requires Valid()
      reads this, Repr
    {
      HealthyIn(state)
    }

    /** IteratorIteration::__construct */
    constructor FromIterator(src: SourceIterator<T>)
      requires src.Valid()
      ensures Valid() && Coherent()
      ensures kind == Adapter && source == src && Src == src && !started
      ensures state == NotReady && nextIndex == -1 && nextValue == None
      ensures Whole == src.items && Emitted == [] && Plucked == [] && steps == 0
      ensures Repr == {this, src}
      ensures (src.restartable || src.pos == 0) ==> Healthy()
    {
      state := NotReady;
      nextValue := None;
      nextIndex := -1;
      kind := Adapter;
      source := src;
      started := false;
      builder := None;
      previous := null;
      Repr := {this, src};
      depth := 0;
      Src := src;
      Step := Root(_ => []);
      Upstream := null;
      Base := 0;
      Finite := true;
      Whole := src.items;
      Emitted := [];
      Plucked := [];
      Exhausted := false;
      steps := 0;
    }

    /** ComputingIteration::__construct without an upstream (`Iterations::build`). */
    constructor Rooted(script: int -> seq<BuilderCall<T>>)
      ensures Valid()
      ensures kind == Computing && previous == null && builder == Some(Root(script))
      ensures state == NotReady && nextIndex == -1 && nextValue == None
      ensures Emitted == [] && Plucked == [] && steps == 0
      ensures Repr == {this} && !Finite
    {
      state := NotReady;
      nextValue := None;
      nextIndex := -1;
      kind := Computing;
      source := null;
      started := false;
      builder := Some(Root(script));
      previous := null;
      Repr := {this};
      depth := 0;
      Src := null;
      Step := Root(script);
      Upstream := null;
      Base := 0;
      Finite := false;
      Whole := [];
      Emitted := [];
      Plucked := [];
      Exhausted := false;
      steps := 0;
    }

    /** ComputingIteration::__construct with an upstream, holding FilteringSequence's step. */
    constructor Linked(pred: (T, int) -> bool, sendWhen: bool, up: Iteration<T>)
      requires up.Valid() && up.Coherent() && up.Finite
      ensures Valid() && Coherent()
      ensures kind == Computing && previous == up && Upstream == up
      ensures builder == Some(Filter(pred, sendWhen))
      ensures state == NotReady && nextIndex == -1 && nextValue == None
      ensures Emitted == [] && Plucked == [] && steps == 0
      ensures Base == |up.Plucked| && Whole == Filtered(up.Whole[Base..], pred, sendWhen)
      ensures Repr == {this} + up.Repr && Finite
      ensures up.Healthy() ==> Healthy()
    {
      state := NotReady;
      nextValue := None;
      nextIndex := -1;
      kind := Computing;
      source := null;
      started := false;
      builder := Some(Filter(pred, sendWhen));
      previous := up;
      Repr := {this} + up.Repr;
      depth := up.depth + 1;
      Src := null;
      Step := Filter(pred, sendWhen);
      Upstream := up;
      Base := |up.Plucked|;
      Finite := true;
      Whole := Filtered(up.Whole[|up.Plucked|..], pred, sendWhen);
      Emitted := [];
      Plucked := [];
      Exhausted := false;
      steps := 0;
    }

    /** hasNext */
    method HasNext() returns (r: Result<bool>)
      requires Valid()
      modifies Repr
      decreases depth, 5
      ensures Valid()
      ensures old(Coherent()) ==> Coherent()
      ensures old(Healthy() && Coherent()) ==> r.Ok? && Healthy()
      ensures r.Err? ==> r.error != NoMoreElements
      ensures old(state) == Failed ==> r == Err(IterationFailed) && unchanged(Repr)
      ensures old(state) == Closed ==> r == Ok(false) && unchanged(Repr)
      ensures old(state) == Ready ==> r == Ok(true) && unchanged(Repr)
      ensures old(state) == NotReady ==>
                steps == old(steps) + 1 && nextIndex >= old(nextIndex) + 1
                && (r.Ok? ==> r.value == (state == Ready))
      ensures old(state) == NotReady && kind == Adapter ==> nextIndex == old(nextIndex) + 1
      ensures old(state) == NotReady && kind == Computing && Upstream == null && old(builder).Some? ==>
                var calls := old(builder).value.script(old(nextIndex) + 1);
                state == StateAfter(calls, Failed)
                && r == (if Throws(calls) then Err(CallbackFailed) else Ok(state == Ready))
      ensures r == Ok(true) ==> state == Ready
      ensures Finite && r == Ok(false) ==> state == Closed
      ensures old(Coherent()) && Finite && r == Ok(false) ==> Exhausted && Emitted == Whole
      ensures Plucked == old(Plucked) && nextIndex >= old(nextIndex)
    {
      match state
      case Failed => r := Err(IterationFailed);
      case Closed => r := Ok(false);
      case Ready => r := Ok(true);
      case NotReady => r := TryComputeNext();
    }

    /** pluckNext */
    method PluckNext() returns (r: Result<T>)
      requires Valid()
      modifies Repr
      decreases depth, 6
      ensures Valid()
      ensures old(Coherent()) ==> Coherent()
      ensures old(Healthy() && Coherent()) ==> Healthy() && (r.Ok? || r == Err(NoMoreElements))
      ensures old(state) == Ready ==>
                r == Ok(old(nextValue).value) && steps == old(steps) && nextIndex == old(nextIndex)
      ensures old(state) == Closed ==> r == Err(NoMoreElements)
      ensures old(state) == Failed ==> r == Err(IterationFailed)
      ensures r.Ok? ==> state == NotReady && nextValue == None && Plucked == old(Plucked) + [r.value]
      ensures r.Err? ==> Plucked == old(Plucked)
      ensures old(Coherent()) && Finite && r.Ok? ==> |old(Plucked)| < |Whole| && r.value == Whole[|old(Plucked)|]
      ensures old(Coherent()) && Finite && r == Err(NoMoreElements) ==> Plucked == Whole
      ensures nextIndex >= old(nextIndex)
      ensures old(state) == Ready || kind == Adapter ==> nextIndex <= old(nextIndex) + 1
    {
      var has := HasNext();
      if has.Err? {
        return Err(has.error);
      }
      if !has.value {
        return Err(NoMoreElements);
      }
      var value := TakePending();
      return Ok(value);
    }

    /** The second half of pluckNext: hand out the pending value and go back to NOT_READY. */
    method TakePending() returns (value: T)
      requires Valid() && state == Ready
      modifies this`state, this`nextValue, this`Plucked
      ensures Valid()
      ensures old(Coherent()) ==> Coherent()
      ensures old(Healthy()) ==> Healthy()
      ensures value == old(nextValue).value
      ensures state == NotReady && nextValue == None && Plucked == old(Plucked) + [value]
      ensures old(Coherent()) && Finite ==> |old(Plucked)| < |Whole| && value == Whole[|old(Plucked)|]
    {
      state := NotReady;
      value := nextValue.value;
      nextValue := None;
      Plucked := Plucked + [value];
    }

    /** tryComputeNext */
    method TryComputeNext() returns (r: Result<bool>)
      requires Valid() && state == NotReady
      modifies Repr
      decreases depth, 4
      ensures Valid()
      ensures old(Coherent()) ==> Coherent()
      ensures old(Healthy() && Coherent()) ==> r.Ok? && Healthy()
      ensures r.Err? ==> r.error != NoMoreElements
      ensures steps == old(steps) + 1 && nextIndex >= old(nextIndex) + 1
      ensures kind == Adapter ==> nextIndex == old(nextIndex) + 1
      ensures r.Ok? ==> r.value == (state == Ready)
      ensures kind == Computing && Upstream == null && old(builder).Some? ==>
                var calls := old(builder).value.script(old(nextIndex) + 1);
                state == StateAfter(calls, Failed)
                && r == (if Throws(calls) then Err(CallbackFailed) else Ok(state == Ready))
      ensures Finite && r.Ok? ==> state == Ready || state == Closed
      ensures old(Coherent()) && Finite && state == Closed ==> Exhausted && Emitted == Whole
      ensures Plucked == old(Plucked)
    {
      BeginStep();
      var o := ComputeNext();
      if o.Fail? {
        return Err(o.error);
      }
      return Ok(state == Ready);
    }

    /** The start of tryComputeNext: FAILED while the step runs, index advanced. */
    method BeginStep()
      requires Valid() && state == NotReady
      modifies this`state, this`nextIndex, this`steps
      ensures Valid() && state == Failed
      ensures nextIndex == old(nextIndex) + 1 && steps == old(steps) + 1
      ensures old(Coherent()) ==> StepCoherent()
      ensures old(Healthy()) ==> HealthyIn(NotReady)
    {
      ghost var coherent := CoherentIn(NotReady, nextIndex);
      state := Failed;
      nextIndex := nextIndex + 1;
      steps := steps + 1;
      assert coherent ==> StepCoherent();
    }

    /** computeNext, dispatched on the concrete class and, for a
        ComputingIteration, on whether it is linked to an upstream cursor. */
    method ComputeNext() returns (o: Outcome)
      requires Valid() && state == Failed
      modifies Repr
      decreases depth, 3
      ensures Valid()
      ensures old(StepCoherent()) ==> Coherent()
      ensures old(HealthyIn(NotReady) && StepCoherent()) ==> o.Pass? && Healthy()
      ensures Finite && o.Pass? ==> state == Ready || state == Closed
      ensures kind == Adapter ==> nextIndex == old(nextIndex)
      ensures kind == Computing && Upstream == null && old(builder).Some? ==>
                var calls := old(builder).value.script(old(nextIndex));
                state == StateAfter(calls, Failed) && (o.Fail? <==> Throws(calls))
                && (o.Fail? ==> o.error == CallbackFailed)
      ensures o.Fail? ==> (state == Failed || !Finite) && o.error != NoMoreElements
      ensures Plucked == old(Plucked) && nextIndex >= old(nextIndex) && steps == old(steps)
    {
      if kind == Adapter {
        o := AdapterStep();
      } else if previous != null {
        o := FilterStep();
      } else if builder.None? {
        // the callable was released by close(); calling null is a TypeError
        o := Fail(TypeMismatch);
      } else {
        o := RunScript(builder.value.script(nextIndex));
      }
    }

    /** IteratorIteration::computeNext */
    method AdapterStep() returns (o: Outcome)
      requires Valid() && kind == Adapter && state == Failed
      modifies this`started, this`source, this`state, this`nextValue, this`Emitted, this`Exhausted
      modifies this`previous, this`builder, Src
      ensures Valid()
      ensures old(StepCoherent()) ==> Coherent()
      ensures old(HealthyIn(NotReady) && StepCoherent()) ==> o.Pass? && Healthy()
      ensures o.Pass? ==> state == Ready || state == Closed
      ensures o.Fail? ==> state == Failed && o.error != NoMoreElements
      ensures old(source) != null && !old(started) ==>
                started && Src.rewinds == old(Src.rewinds) + 1 && Src.advances == old(Src.advances)
      ensures old(source) != null && old(started) ==>
                Src.advances == old(Src.advances) + 1 && Src.rewinds == old(Src.rewinds)
      ensures state == Ready ==> nextValue == Src.Current() && source == Src
      ensures state == Closed ==> source == null && !Src.HasCurrent()
      ensures nextIndex == old(nextIndex) && Plucked == old(Plucked)
    {
      if source == null {
        // the reference was dropped when the cursor closed; calling a method
        // on null raises PHP's Error, reported here as CallbackFailed
        return Fail(CallbackFailed);
      }
      if started {
        source.Next();
      } else {
        started := true;
        var rewound := source.Rewind();
        if rewound.Fail? {
          return rewound;
        }
      }
      if source.HasCurrent() {
        var current := source.Current();
        SetNext(current.value);
        return Pass;
      }
      source := null;
      Exhausted := true;
      Close();
      return Pass;
    }

    /** FilteringSequence's linked step: pull upstream until an element whose
        verdict equals `sendWhen`, skipping the others; close on exhaustion. */
    method FilterStep() returns (o: Outcome)
      requires Valid() && kind == Computing && previous != null && state == Failed
      modifies Repr
      decreases depth, 2
      ensures Valid()
      ensures old(StepCoherent()) ==> Coherent()
      ensures old(HealthyIn(NotReady) && StepCoherent()) ==> o.Pass? && Healthy()
      ensures o.Pass? ==> state == Ready || state == Closed
      ensures o.Fail? ==> state == Failed && o.error != NoMoreElements
      ensures steps == old(steps)
      ensures state == Ready ==>
                Emitted == old(Emitted) + [nextValue.value]
                && |Upstream.Plucked| > |old(Upstream.Plucked)|
                && Upstream.Plucked[|Upstream.Plucked| - 1] == nextValue.value
                && Step.pred(nextValue.value, nextIndex) == Step.sendWhen
      ensures state != Ready ==> Emitted == old(Emitted)
      ensures nextIndex >= old(nextIndex)
      ensures nextIndex - old(nextIndex)
              == |Upstream.Plucked| - |old(Upstream.Plucked)| - (if state == Ready then 1 else 0)
      ensures Plucked == old(Plucked)
    {
      var up := previous;
      ghost var coherent := StepCoherent();
      ghost var index0 := nextIndex;
      ghost var plucked0 := up.Plucked;
      ghost var healthy := HealthyIn(NotReady);
      while true
        invariant Valid() && previous == up && Upstream == up && state == Failed
        invariant builder == old(builder) && Plucked == old(Plucked) && Emitted == old(Emitted)
        invariant Exhausted == old(Exhausted) && steps == old(steps)
        invariant healthy ==> up.Healthy()
        invariant |up.Plucked| >= |plucked0|
        invariant nextIndex - index0 == |up.Plucked| - |plucked0|
        invariant coherent ==> Scanned()
        decreases |up.Whole| - |up.Plucked|
      {
        var scan := ScanOne();
        if scan.Err? {
          return Fail(scan.error);
        }
        match scan.value {
          case Published => return Pass;
          case Drained => break;
          case Skipped =>
        }
      }
      FinishFilter(coherent);
      return Pass;
    }

    /** The end of the filter's loop: the upstream has no more elements, so
        the cursor closes, having published everything it must. */
    method FinishFilter(ghost coherent: bool)
      requires Valid() && kind == Computing && previous != null && state == Failed
      requires Upstream.Plucked == Upstream.Whole
      requires coherent ==> Scanned()
      modifies this`state, this`source, this`previous, this`builder, this`Exhausted
      ensures Valid() && state == Closed && Healthy()
      ensures coherent ==> Coherent()
    {
      if coherent {
        assert Upstream.Plucked[Base..] == Upstream.Whole[Base..];
      }
      Exhausted := true;
      Close();
    }

    /** The filter's loop invariant: everything pulled so far has been
        judged, at its own upstream position, and nothing is pending. */
    ghost predicate Scanned()
      requires Valid()
      reads this, Repr
    {
      Upstream != null && previous != null
      && Base <= |Upstream.Plucked|
      && Emitted == Filtered(Upstream.Plucked[Base..], Step.pred, Step.sendWhen)
      && nextIndex == |Upstream.Plucked| - Base
      && Emitted == Plucked && !Exhausted
    }

    /** One turn of the filter's loop: pull one upstream element and either
        publish it (`setNext`) or skip it (`skipping`). */
    method ScanOne() returns (r: Result<ScanResult>)
      requires Valid() && kind == Computing && previous != null && state == Failed
      modifies Repr
      decreases depth, 1
      ensures Valid() && previous == old(previous) && builder == old(builder)
      ensures Plucked == old(Plucked) && Exhausted == old(Exhausted) && steps == old(steps)
      ensures r.Err? ==> r.error != NoMoreElements
      ensures r == Ok(Published) ==>
                state == Ready && Emitted == old(Emitted) + [nextValue.value]
                && nextIndex == old(nextIndex)
                && Upstream.Plucked == old(Upstream.Plucked) + [nextValue.value]
                && Step.pred(nextValue.value, nextIndex) == Step.sendWhen
      ensures r != Ok(Published) ==> state == Failed && Emitted == old(Emitted)
      ensures r == Ok(Skipped) ==>
                nextIndex == old(nextIndex) + 1 && |Upstream.Plucked| == |old(Upstream.Plucked)| + 1
      ensures r.Err? || r == Ok(Drained) ==>
                nextIndex == old(nextIndex) && Upstream.Plucked == old(Upstream.Plucked)
      ensures r == Ok(Drained) ==> Upstream.Plucked == Upstream.Whole
      ensures old(Scanned()) && r != Ok(Published) ==> Scanned()
      ensures old(Scanned()) && r == Ok(Published) ==> Coherent()
      ensures old(Upstream.Healthy()) ==> r.Ok? && Upstream.Healthy()
    {
      var up := previous;
      ghost var before := up.Plucked;
      ghost var scanned := Scanned();
      var pulled := PullUpstream();
      if pulled.Err? {
        return Err(pulled.error);
      }
      if pulled.value.None? {
        return Ok(Drained);
      }
      var element := pulled.value.value;
      var published := Judge(element, before, scanned);
      return if published then Ok(Published) else Ok(Skipped);
    }

    /** The second half of one turn of the filter's loop: publish the element
        just pulled (`setNext`) when its verdict equals `sendWhen`, or skip it. */
    method Judge(element: T, ghost before: seq<T>, ghost scanned: bool) returns (published: bool)
      requires Valid() && kind == Computing && previous != null && state == Failed
      requires Upstream.Plucked == before + [element]
      requires scanned ==>
                 Base <= |before| && Emitted == Filtered(before[Base..], Step.pred, Step.sendWhen)
                 && nextIndex == |before| - Base && Emitted == Plucked && !Exhausted
      modifies this`state, this`nextValue, this`Emitted, this`nextIndex
      ensures Valid()
      ensures published ==>
                state == Ready && nextValue == Some(element) && Emitted == old(Emitted) + [element]
                && nextIndex == old(nextIndex) && Step.pred(element, nextIndex) == Step.sendWhen
      ensures !published ==>
                state == Failed && Emitted == old(Emitted) && nextIndex == old(nextIndex) + 1
      ensures scanned && !published ==> Scanned()
      ensures scanned && published ==> Coherent()
    {
      if builder.value.pred(element, nextIndex) == builder.value.sendWhen {
        Publish(element, before, scanned);
        return true;
      }
      Skip(element, before, scanned);
      return false;
    }

    /** `setNext` on the element just pulled. */
    method Publish(element: T, ghost before: seq<T>, ghost scanned: bool)
      requires Valid() && kind == Computing && previous != null && state == Failed
      requires Upstream.Plucked == before + [element]
      requires Step.pred(element, nextIndex) == Step.sendWhen
      requires scanned ==>
                 Base <= |before| && Emitted == Filtered(before[Base..], Step.pred, Step.sendWhen)
                 && nextIndex == |before| - Base && Emitted == Plucked && !Exhausted
      modifies this`state, this`nextValue, this`Emitted
      ensures Valid()
      ensures state == Ready && nextValue == Some(element) && Emitted == old(Emitted) + [element]
      ensures scanned ==> Coherent()
    {
      if scanned {
        FilteredPulled(before, element, Base, Step.pred, Step.sendWhen);
      }
      SetNext(element);
      if scanned {
        FilterReadyIsCoherent();
      }
    }

    /** `skipping` over the element just pulled. */
    method Skip(element: T, ghost before: seq<T>, ghost scanned: bool)
      requires Valid() && kind == Computing && previous != null && state == Failed
      requires Upstream.Plucked == before + [element]
      requires Step.pred(element, nextIndex) != Step.sendWhen
      requires scanned ==>
                 Base <= |before| && Emitted == Filtered(before[Base..], Step.pred, Step.sendWhen)
                 && nextIndex == |before| - Base && Emitted == Plucked && !Exhausted
      modifies this`nextIndex
      ensures Valid()
      ensures nextIndex == old(nextIndex) + 1
      ensures scanned ==> Scanned()
    {
      if scanned {
        FilteredPulled(before, element, Base, Step.pred, Step.sendWhen);
      }
      Skipping();
    }

    /** A filter that has just published the element it pulled last is coherent. */
    lemma FilterReadyIsCoherent()
      requires Valid() && Upstream != null && previous != null && state == Ready
      requires Base <= |Upstream.Plucked|
      requires Emitted == Filtered(Upstream.Plucked[Base..], Step.pred, Step.sendWhen)
      requires Emitted == Plucked + [nextValue.value]
      requires nextIndex == |Upstream.Plucked| - Base - 1
      requires !Exhausted
      ensures Coherent()
    {
      FilteredPrefixOf(Upstream.Whole, Upstream.Plucked, Base, Step.pred, Step.sendWhen);
    }

    /** The filter step's `hasNext` then `pluckNext` on the upstream cursor;
        `None` when the upstream has no more elements. */
    method PullUpstream() returns (r: Result<Option<T>>)
      requires Valid() && kind == Computing && previous != null
      modifies Upstream.Repr
      decreases depth, 0
      ensures Valid()
      ensures r.Err? ==> r.error != NoMoreElements
      ensures r.Ok? && r.value.Some? ==> Upstream.Plucked == old(Upstream.Plucked) + [r.value.value]
      ensures !(r.Ok? && r.value.Some?) ==> Upstream.Plucked == old(Upstream.Plucked)
      ensures r == Ok(None) ==> Upstream.Plucked == Upstream.Whole
      ensures old(Upstream.Healthy()) ==> r.Ok? && Upstream.Healthy()
    {
      var up := previous;
      var has := up.HasNext();
      if has.Err? {
        return Err(has.error);
      }
      if !has.value {
        return Ok(None);
      }
      var plucked := up.PluckNext();
      return Ok(Some(plucked.value));
    }

    /** A root step callback: its calls on the cursor, in order, up to a throw. */
    method RunScript(calls: seq<BuilderCall<T>>) returns (o: Outcome)
      requires Valid() && kind == Computing && Upstream == null
      modifies this`state, this`nextValue, this`Emitted, this`nextIndex, this`source, this`previous, this`builder
      ensures Valid()
      ensures state == StateAfter(calls, old(state))
      ensures o.Fail? <==> Throws(calls)
      ensures o.Fail? ==> o.error == CallbackFailed
      ensures nextIndex >= old(nextIndex) && Plucked == old(Plucked)
    {
      var i := 0;
      while i < |calls|
        invariant 0 <= i <= |calls| && Valid() && kind == Computing && Upstream == null
        invariant StateAfter(calls[i..], state) == StateAfter(calls, old(state))
        invariant forall j :: 0 <= j < i ==> !calls[j].Throw?
        invariant nextIndex >= old(nextIndex) && Plucked == old(Plucked)
        decreases |calls| - i
      {
        assert calls[i..][1..] == calls[i + 1..];
        match calls[i] {
          case SetNext(element) => SetNext(element);
          case Skipping => Skipping();
          case Close => Close();
          case Throw => return Fail(CallbackFailed);
        }
        i := i + 1;
      }
      return Pass;
    }

    /** close, with the releases of both subclasses: an adapter drops its
        iterator, a computing cursor drops its upstream and its callable. */
    method Close()
      requires Valid()
      modifies this`state, this`source, this`previous, this`builder
      ensures Valid()
      ensures state == Closed
      ensures source == null && previous == null && builder.None?
    {
      state := Closed;
      if kind == Adapter {
        source := null;
      } else {
        previous := null;
        builder := None;
      }
    }

    /** setNext */
    method SetNext(element: T)
      requires Valid()
      modifies this`state, this`nextValue, this`Emitted
      ensures Valid()
      ensures state == Ready && nextValue == Some(element)
      ensures Emitted == old(Emitted) + [element]
    {
      nextValue := Some(element);
      state := Ready;
      Emitted := Emitted + [element];
    }

    /** skipping */
    method Skipping()
      requires Valid()
      modifies this`nextIndex
      ensures Valid()
      ensures nextIndex == old(nextIndex) + 1
    {
      nextIndex := nextIndex + 1;
    }

    /** getIndex, and also key(): the index of the pending element. An
        adapter counts the source's elements, so a ready adapter's key is the
        number of elements plucked before it; a filtering cursor counts the
        upstream's elements, rejected ones included. */
    function GetIndex(): (i: int)
      reads this, Repr
      requires Valid()
      ensures i >= -1
      ensures Coherent() && Finite && state == Ready && kind == Adapter ==> i == |Plucked|
      ensures Coherent() && Finite && (state == Ready || state == NotReady) && Upstream != null && previous != null ==>
                i == |Upstream.Plucked| - Base - 1
    {
      nextIndex
    }

    /** rewind: allowed only while nothing has been consumed. */
    method IteratorRewind() returns (o: Outcome)
      requires Valid()
      ensures o.Fail? <==> nextIndex > 0 || (nextIndex == 0 && state != Ready)
      ensures o.Fail? ==> o.error == NotRewindable
      ensures o.Pass? ==> nextIndex == -1 || (nextIndex == 0 && state == Ready)
    {
      if nextIndex > 0 || (nextIndex == 0 && state != Ready) {
        return Fail(NotRewindable);
      }
      return Pass;
    }

    /** current: the pending value. */
    function IteratorCurrent(): (v: Option<T>)
      reads this, Repr
      requires Valid()
      ensures state == Ready ==> v.Some?
      ensures Coherent() && Finite && state == Ready ==>
                v.Some? && |Plucked| < |Whole| && v.value == Whole[|Plucked|]
    {
      nextValue
    }

    /** next: pluckNext with the value discarded. */
    method IteratorNext() returns (o: Outcome)
      requires Valid()
      modifies Repr
      ensures Valid()
      ensures old(Coherent()) ==> Coherent()
      ensures old(Healthy() && Coherent()) ==> Healthy()
      ensures old(state) == Ready ==>
                o.Pass? && state == NotReady && Plucked == old(Plucked) + [old(nextValue).value]
      ensures o.Pass? ==> |Plucked| == |old(Plucked)| + 1
      ensures o.Fail? ==> Plucked == old(Plucked)
      ensures old(state) == Ready ==> nextIndex == old(nextIndex)
    {
      var plucked := PluckNext();
      if plucked.Err? {
        return Fail(plucked.error);
      }
      return Pass;
    }
  }
}
