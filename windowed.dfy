/** `WindowedSequence` (and `chunked`, which is `windowed(size, size, partial)`):
    a reference definition of the windows, the two buffering algorithms the
    stage picks between, and their agreement with the reference. */
module Windowing {
  import opened Outcomes
  import opened Transforming

  /** The windows that start at `start`, `start + step`, ...: full windows of
      `size` elements and, when `partial` is set, the shorter ones that run
      into the end of the input. */
  function WindowsFrom<T>(s: seq<T>, start: nat, size: nat, step: nat, partial: bool): seq<seq<T>>
    requires size >= 1 && step >= 1
    decreases |s| - start
  {
    if start >= |s| then []
    else if start + size <= |s| then [s[start..start + size]] + WindowsFrom(s, start + step, size, step, partial)
    else if partial then [s[start..]] + WindowsFrom(s, start + step, size, step, partial)
    else []
  }

  /** The windows of the whole input. */
  function Windows<T>(s: seq<T>, size: nat, step: nat, partial: bool): seq<seq<T>>
    requires size >= 1 && step >= 1
  {
    WindowsFrom(s, 0, size, step, partial)
  }

  /** Window k covers `s[start + k*step .. start + k*step + size]`, cut at the
      end of the input; without `partial` it is full. */
  lemma {:induction false} WindowAt<T>(s: seq<T>, start: nat, size: nat, step: nat, partial: bool, k: nat)
    requires size >= 1 && step >= 1
    requires k < |WindowsFrom(s, start, size, step, partial)|
    ensures start + k * step < |s|
    ensures WindowsFrom(s, start, size, step, partial)[k] == s[start + k * step .. Min(start + k * step + size, |s|)]
    ensures !partial ==> start + k * step + size <= |s|
    decreases k
  {
    if k > 0 {
      var rest := WindowsFrom(s, start + step, size, step, partial);
      assert WindowsFrom(s, start, size, step, partial)[k] == rest[k - 1];
      WindowAt(s, start + step, size, step, partial, k - 1);
      OneMoreStep(k, step);
    }
  }

  lemma OneMoreStep(k: nat, step: nat)
    requires k > 0
    ensures step + (k - 1) * step == k * step
  {
  }

  /** No window that should be there is missing: with `partial` the windows
      reach the end of the input; without it, one more full window would not fit. */
  lemma {:induction false} WindowsReachEnd<T>(s: seq<T>, start: nat, size: nat, step: nat, partial: bool)
    requires size >= 1 && step >= 1
    ensures partial ==> start + |WindowsFrom(s, start, size, step, partial)| * step >= |s|
    ensures !partial ==> start + |WindowsFrom(s, start, size, step, partial)| * step + size > |s|
    decreases |s| - start
  {
    var w := WindowsFrom(s, start, size, step, partial);
    if start < |s| && (start + size <= |s| || partial) {
      var rest := WindowsFrom(s, start + step, size, step, partial);
      WindowsReachEnd(s, start + step, size, step, partial);
      assert |w| == |rest| + 1;
      assert |w| * step == |rest| * step + step;
    }
  }

  /** Where a full window fits, it comes first, partial or not. */
  lemma FullWindowFirst<T>(s: seq<T>, start: nat, size: nat, step: nat, partial: bool)
    requires size >= 1 && step >= 1 && start + size <= |s|
    ensures WindowsFrom(s, start, size, step, partial)
         == [s[start..start + size]] + WindowsFrom(s, start + step, size, step, partial)
  {
  }

  /** Emitting the full window at `start` moves the next window on by `step`. */
  lemma WindowEmitted<T>(s: seq<T>, size: nat, step: nat, partial: bool, start: nat, out: seq<seq<T>>)
    requires size >= 1 && step >= 1 && start + size <= |s|
    requires Windows(s, size, step, partial) == out + WindowsFrom(s, start, size, step, partial)
    ensures Windows(s, size, step, partial)
         == (out + [s[start..start + size]]) + WindowsFrom(s, start + step, size, step, partial)
  {
    FullWindowFirst(s, start, size, step, partial);
  }

  /** The whole input's windows, as the stage documents them. */
  lemma WindowsCharacterization<T>(s: seq<T>, size: nat, step: nat, partial: bool)
    requires size >= 1 && step >= 1
    ensures var w := Windows(s, size, step, partial);
            (forall k :: 0 <= k < |w| ==>
               k * step < |s| && w[k] == s[k * step .. Min(k * step + size, |s|)]
               && (!partial ==> k * step + size <= |s|))
            && (partial ==> |w| * step >= |s|)
            && (!partial ==> |w| * step + size > |s|)
  {
    var w := Windows(s, size, step, partial);
    forall k | 0 <= k < |w|
      ensures k * step < |s| && w[k] == s[k * step .. Min(k * step + size, |s|)]
      ensures !partial ==> k * step + size <= |s|
    {
      WindowAt(s, 0, size, step, partial, k);
    }
    WindowsReachEnd(s, 0, size, step, partial);
  }

  /** Concatenation of a list of lists. */
  function Concat<T>(ws: seq<seq<T>>): seq<T>
  {
    if ws == [] then [] else ws[0] + Concat(ws[1..])
  }

  /** `chunked(size)` loses and repeats nothing: its chunks concatenate back to the input. */
  lemma {:induction false} ChunksConcatenate<T>(s: seq<T>, start: nat, size: nat)
    requires size >= 1 && start <= |s|
    ensures Concat(WindowsFrom(s, start, size, size, true)) == s[start..]
    decreases |s| - start
  {
    if start < |s| {
      var next := Min(start + size, |s|);
      ChunksConcatenate(s, next, size);
      var w := WindowsFrom(s, start, size, size, true);
      if start + size <= |s| {
        assert w[1..] == WindowsFrom(s, start + size, size, size, true);
      } else {
        assert WindowsFrom(s, start + size, size, size, true) == [];
        assert w[1..] == [];
      }
      SliceSplit(s, start, next);
    }
  }

  /** A suffix is a middle slice followed by the rest. */
  lemma SliceSplit<T>(s: seq<T>, i: nat, j: nat)
    requires i <= j <= |s|
    ensures s[i..] == s[i..j] + s[j..]
  {
  }

  /** The constructor's argument check: zero size or step is refused, naming
      the offending arguments; anything else, negative values included, is accepted. */
  function CheckWindowArguments(size: int, step: int): (o: Outcome)
    ensures o.Pass? <==> size != 0 && step != 0
    ensures o.Fail? ==> o.error.InvalidArgument?
    ensures o.Fail? ==> o.error.message == ZeroNames(size, step) + " must be greater than zero!"
  {
    if size == 0 || step == 0 then
      Fail(InvalidArgument(ZeroNames(size, step) + " must be greater than zero!"))
    else
      Pass
  }

  /** The arguments named in the constructor's message. */
  function ZeroNames(size: int, step: int): string
  {
    if size == 0 && step == 0 then "size and step"
    else if size == 0 then "size"
    else "step"
  }

  /** `arrayDrop`: shifts `count` elements off the front of the buffer;
      shifting an empty buffer does nothing, and a count below one drops nothing. */
  method ArrayDrop<T>(source: seq<T>, count: int) returns (r: seq<T>)
    ensures r == source[Min(Max(count, 0), |source|)..]
    ensures |r| == |source| - Min(Max(count, 0), |source|)
  {
    r := source;
    var dropped := 0;
    while dropped < count
      invariant 0 <= dropped && (count > 0 ==> dropped <= count) && (count <= 0 ==> dropped == 0)
      invariant r == source[Min(dropped, |source|)..]
    {
      if |r| > 0 {
        r := r[1..];
      }
      dropped := dropped + 1;
    }
  }

  /** `isolatedWindows`, chosen when `step >= size`: fill a buffer, emit it when
      it holds `size` elements, then skip `step - size` elements. A negative
      size never fills the buffer, so at most one partial window comes out. */
  method IsolatedWindows<T>(s: seq<T>, size: int, step: int, partial: bool) returns (out: seq<seq<T>>)
    requires size != 0 && step >= size
    ensures size > 0 ==> out == Windows(s, size, step, partial)
    ensures size < 0 ==> out == if partial && |s| > 0 then [s] else []
  {
    var gap := step - size;
    var buffer: seq<T> := [];
    var skip := 0;
    out := [];
    ghost var next: nat := 0;
    var i := 0;
    while i < |s|
      invariant 0 <= i <= |s| && 0 <= skip
      invariant size < 0 ==> out == [] && buffer == s[..i] && skip == 0
      invariant size > 0 ==> skip <= gap && |buffer| < size
      invariant size > 0 ==> i + skip == next + |buffer|
      invariant size > 0 && skip > 0 ==> buffer == []
      invariant size > 0 && skip == 0 ==> next <= i && buffer == s[next..i]
      invariant size > 0 ==> Windows(s, size, step, partial) == out + WindowsFrom(s, next, size, step, partial)
    {
      var element := s[i];
      i := i + 1;
      if skip > 0 {
        skip := skip - 1;
        continue;
      }
      buffer := buffer + [element];
      if |buffer| == size {
        assert buffer == s[next..next + size];
        WindowEmitted(s, size, step, partial, next, out);
        out := out + [buffer];
        buffer := [];
        skip := gap;
        next := next + step;
      }
    }
    if size < 0 {
      assert s[..|s|] == s;
    } else {
      IsolatedRest(s, size, step, partial, next, buffer, skip);
    }
    if |buffer| > 0 && partial {
      out := out + [buffer];
    }
  }

  /** When `isolatedWindows` runs out of input, what remains of the windows is
      the buffer, if it holds anything and partial windows are wanted. */
  lemma IsolatedRest<T>(s: seq<T>, size: nat, step: nat, partial: bool, next: nat, buffer: seq<T>, skip: nat)
    requires 1 <= size <= step && |buffer| < size
    requires |s| + skip == next + |buffer|
    requires skip > 0 ==> buffer == []
    requires skip == 0 ==> next <= |s| && buffer == s[next..]
    ensures WindowsFrom(s, next, size, step, partial) == if |buffer| > 0 && partial then [buffer] else []
  {
    if |buffer| > 0 {
      assert WindowsFrom(s, next + step, size, step, partial) == [];
    }
  }

  /** `overlappingWindows`, chosen when `step < size`: emit the buffer whenever
      it holds `size` elements and drop `step` from its front; at the end, with
      `partial`, emit and drop while more than `step` remain, then emit the rest. */
  method OverlappingWindows<T>(s: seq<T>, size: int, step: int, partial: bool) returns (out: seq<seq<T>>)
    requires 0 < step < size
    ensures out == Windows(s, size, step, partial)
  {
    var buffer;
    ghost var next;
    out, buffer, next := OverlappingFill(s, size, step, partial);
    assert WindowsFrom(s, next, size, step, false) == [];
    if partial {
      var tail := FlushPartial(s, size, step, next, buffer);
      out := out + tail;
    }
  }

  /** The pulling loop of `overlappingWindows`: the full windows emitted so
      far and the buffer left over, which holds the input from the next
      window's start on and is shorter than a window. */
  method OverlappingFill<T>(s: seq<T>, size: int, step: int, partial: bool)
    returns (out: seq<seq<T>>, buffer: seq<T>, ghost next: nat)
    requires 0 < step < size
    ensures next <= |s| && buffer == s[next..] && |buffer| < size
    ensures Windows(s, size, step, partial) == out + WindowsFrom(s, next, size, step, partial)
  {
    buffer := [];
    out := [];
    next := 0;
    var i := 0;
    while i < |s|
      invariant 0 <= i <= |s|
      invariant next <= i && buffer == s[next..i] && |buffer| < size
      invariant Windows(s, size, step, partial) == out + WindowsFrom(s, next, size, step, partial)
    {
      assert s[next..i + 1] == s[next..i] + [s[i]];
      buffer := buffer + [s[i]];
      i := i + 1;
      if |buffer| == size {
        out, buffer, next := EmitFull(s, size, step, partial, out, buffer, next, i);
      }
    }
  }

  /** A buffer that has reached the window size: emit it as one window and
      drop `step` elements from its front. */
  method EmitFull<T>(s: seq<T>, size: int, step: int, partial: bool, out: seq<seq<T>>, buffer: seq<T>,
                     ghost next: nat, ghost i: nat)
    returns (out': seq<seq<T>>, buffer': seq<T>, ghost next': nat)
    requires 0 < step < size && next <= i <= |s| && buffer == s[next..i] && |buffer| == size
    requires Windows(s, size, step, partial) == out + WindowsFrom(s, next, size, step, partial)
    ensures next' <= i && buffer' == s[next'..i] && |buffer'| < size
    ensures Windows(s, size, step, partial) == out' + WindowsFrom(s, next', size, step, partial)
  {
    assert buffer == s[next..next + size] && buffer[step..] == s[next + step..i];
    WindowEmitted(s, size, step, partial, next, out);
    out' := out + [buffer];
    buffer' := ArrayDrop(buffer, step);
    next' := next + step;
  }

  /** The end of `overlappingWindows` with partial windows: emit and drop
      `step` while more than `step` elements remain, then emit what is left. */
  method FlushPartial<T>(s: seq<T>, size: int, step: int, ghost start: nat, buffer: seq<T>)
    returns (tail: seq<seq<T>>)
    requires 0 < step < size && start <= |s| && buffer == s[start..] && |buffer| < size
    ensures tail == WindowsFrom(s, start, size, step, true)
  {
    var rest := buffer;
    ghost var next: nat := start;
    tail := [];
    while |rest| > step
      invariant next <= |s| && rest == s[next..] && |rest| < size
      invariant WindowsFrom(s, start, size, step, true) == tail + WindowsFrom(s, next, size, step, true)
      decreases |rest|
    {
      tail := tail + [rest];
      rest := ArrayDrop(rest, step);
      next := next + step;
    }
    if |rest| > 0 {
      assert WindowsFrom(s, next + step, size, step, true) == [];
      tail := tail + [rest];
    }
  }

  /** `overlappingWindows` with a negative step and no partial windows: the
      argument check lets the step through, and dropping a negative count
      drops nothing, so the buffer only grows; it holds exactly `size`
      elements once at most, and that is the one window emitted. */
  method StuckWindows<T>(s: seq<T>, size: int, step: int) returns (out: seq<seq<T>>)
    requires step < 0 && step < size
    ensures out == if 0 < size <= |s| then [s[..size]] else []
  {
    var buffer: seq<T> := [];
    out := [];
    var i := 0;
    while i < |s|
      invariant 0 <= i <= |s| && buffer == s[..i]
      invariant out == if 0 < size <= i then [s[..size]] else []
    {
      assert s[..i + 1] == s[..i] + [s[i]];
      buffer := buffer + [s[i]];
      i := i + 1;
      if |buffer| == size {
        out := out + [buffer];
        buffer := ArrayDrop(buffer, step);
      }
    }
  }

  /** `windowed(size, step, partial)` iterated: the argument check, then the
      algorithm `step - size` selects. Excluded: a negative step below the
      size together with partial windows, on which the trailing loop of
      `overlappingWindows` never stops. */
  method Windowed<T>(s: seq<T>, size: int, step: int, partial: bool) returns (r: Result<seq<seq<T>>>)
    requires !(step < 0 && step < size && partial)
    ensures r.Err? <==> size == 0 || step == 0
    ensures r.Err? ==> r.error == CheckWindowArguments(size, step).error
    ensures size > 0 && step > 0 ==> r == Ok(Windows(s, size, step, partial))
    ensures size < 0 && step >= size && step != 0 ==> r == Ok(if partial && |s| > 0 then [s] else [])
    ensures step < 0 && step < size && size != 0 ==> r == Ok(if 0 < size <= |s| then [s[..size]] else [])
  {
    var checked := CheckWindowArguments(size, step);
    if checked.Fail? {
      return Err(checked.error);
    }
    var gap := step - size;
    var windows;
    if gap >= 0 {
      windows := IsolatedWindows(s, size, step, partial);
    } else if step > 0 {
      windows := OverlappingWindows(s, size, step, partial);
    } else {
      windows := StuckWindows(s, size, step);
    }
    return Ok(windows);
  }

  /** `chunked(size)`: non-overlapping windows of `size`, the last one possibly short. */
  method Chunked<T>(s: seq<T>, size: int) returns (r: Result<seq<seq<T>>>)
    ensures r.Err? <==> size == 0
    ensures size > 0 ==> r.Ok? && Concat(r.value) == s
    ensures size > 0 ==> r.Ok? && forall k :: 0 <= k < |r.value| ==>
              k * size < |s| && r.value[k] == s[k * size .. Min(k * size + size, |s|)]
  {
    r := Windowed(s, size, size, true);
    if size > 0 {
      ChunksConcatenate(s, 0, size);
      WindowsCharacterization(s, size, size, true);
    }
  }

  /** The trailing loop of `overlappingWindows` as written, run for at most
      `fuel` rounds: `None` when it has not finished by then. */
  function TrailingWindowsAsWritten<T>(buffer: seq<T>, step: int, fuel: nat): (r: Option<seq<seq<T>>>)
    ensures r.Some? ==> |r.value| <= fuel + 1
    ensures r.Some? ==> forall k :: 0 <= k < |r.value| ==>
              |r.value[k]| <= |buffer| && r.value[k] == buffer[|buffer| - |r.value[k]|..]
  {
    if |buffer| > step then
      if fuel == 0 then None
      else
        match TrailingWindowsAsWritten(buffer[Min(Max(step, 0), |buffer|)..], step, fuel - 1)
        case None => None
        case Some(rest) => Some([buffer] + rest)
    else
      Some(if |buffer| > 0 then [buffer] else [])
  }

  /** With a negative step (which the constructor accepts) the trailing loop
      never finishes, however many rounds it is given: it emits the same
      buffer forever. */
  lemma {:induction false} NegativeStepNeverEnds<T>(buffer: seq<T>, step: int, fuel: nat)
    requires step < 0
    ensures TrailingWindowsAsWritten(buffer, step, fuel) == None
  {
    if fuel > 0 {
      assert buffer[Min(Max(step, 0), |buffer|)..] == buffer;
      NegativeStepNeverEnds(buffer, step, fuel - 1);
    }
  }

  /** The check the constructor evidently means ("must be greater than zero"):
      it refuses every size and step below one. */
  function CheckWindowArgumentsCorrected(size: int, step: int): (o: Outcome)
    ensures o.Pass? <==> size > 0 && step > 0
    ensures o.Fail? ==> o.error.InvalidArgument?
  {
    if size <= 0 || step <= 0 then
      Fail(InvalidArgument(ZeroNames(if size <= 0 then 0 else size, if step <= 0 then 0 else step)
                           + " must be greater than zero!"))
    else
      Pass
  }

  /** Once the check refuses non-positive steps, the trailing loop finishes
      for every buffer, within one round per element. */
  lemma {:induction false} PositiveStepEnds<T>(buffer: seq<T>, step: int)
    requires CheckWindowArgumentsCorrected(1, step).Pass?
    ensures TrailingWindowsAsWritten(buffer, step, |buffer|).Some?
    decreases |buffer|
  {
    if |buffer| > step {
      PositiveStepEnds(buffer[step..], step);
      TrailingFuelMonotone(buffer[step..], step, |buffer[step..]|, |buffer| - 1);
    }
  }

  /** More rounds never hurt a run that finishes. */
  lemma {:induction false} TrailingFuelMonotone<T>(buffer: seq<T>, step: int, fuel: nat, more: nat)
    requires fuel <= more && TrailingWindowsAsWritten(buffer, step, fuel).Some?
    ensures TrailingWindowsAsWritten(buffer, step, more) == TrailingWindowsAsWritten(buffer, step, fuel)
    decreases fuel
  {
    if |buffer| > step {
      TrailingFuelMonotone(buffer[Min(Max(step, 0), |buffer|)..], step, fuel - 1, more - 1);
    }
  }

  /** `windowed` with the corrected check: every accepted argument pair gives
      the reference windows, and no input is excluded. */
  method WindowedChecked<T>(s: seq<T>, size: int, step: int, partial: bool) returns (r: Result<seq<seq<T>>>)
    ensures r.Err? <==> size <= 0 || step <= 0
    ensures r.Ok? ==> size > 0 && step > 0 && r.value == Windows(s, size, step, partial)
  {
    var checked := CheckWindowArgumentsCorrected(size, step);
    if checked.Fail? {
      return Err(checked.error);
    }
    r := Windowed(s, size, step, partial);
  }

  /** `windowed(size, step, partial, transform)`: the windows, each passed
      through `transform` with its position, as `map` does. */
  method WindowedTransformed<T, U>(s: seq<T>, size: int, step: int, partial: bool, transform: (seq<T>, int) -> U)
    returns (r: Result<seq<U>>)
    requires !(step < 0 && step < size && partial)
    ensures r.Err? <==> size == 0 || step == 0
    ensures r.Err? ==> r.error == CheckWindowArguments(size, step).error
    ensures size > 0 && step > 0 ==> r == Ok(MapIndexed(Windows(s, size, step, partial), transform))
    ensures size < 0 && step >= size && step != 0 ==>
              r == Ok(MapIndexed(if partial && |s| > 0 then [s] else [], transform))
    ensures step < 0 && step < size && size != 0 ==>
              r == Ok(MapIndexed(if 0 < size <= |s| then [s[..size]] else [], transform))
  {
    var windows := Windowed(s, size, step, partial);
    if windows.Err? {
      return Err(windows.error);
    }
    var mapped := Map(windows.value, transform);
    return Ok(mapped);
  }
}
