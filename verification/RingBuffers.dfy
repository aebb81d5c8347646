// The buffer code: pushing a sample, viewing the current frame, copying it.
// The ring is proved against the plain sequence of samples pushed since the
// last effective flush.
module RingBuffers {
  import opened Arith
  import opened BufferSpecs

  // What a buffer means: no storage, no index, no wrap-around.
  datatype Abstract<T> = Abstract(
    samples: seq<T>,     // pushed since the last effective flush
    since: nat,          // pushes since the last ready frame
    flushPending: bool,  // the next push starts over
    ready: bool)         // sticky until the end of the domain tick

  datatype Event<T> = Push(value: T, trigger: bool) | EndTick | Init

  function Started<T>(): Abstract<T> {
    Abstract([], 0, false, false)
  }

  predicate Fires(spec: BufferSpec, trigger: bool) {
    spec.HasTriggerEntity() && trigger
  }

  predicate FrameReady(spec: BufferSpec, pushed: nat, since: nat, trigger: bool) {
    (pushed >= spec.frameSize && since >= spec.hop) || Fires(spec, trigger)
  }

  function PushModel<T>(spec: BufferSpec, a: Abstract<T>, value: T, trigger: bool): Abstract<T> {
    var kept := if a.flushPending then [] else a.samples;
    var since := (if a.flushPending then 0 else a.since) + 1;
    var ready := FrameReady(spec, |kept| + 1, since, trigger);
    Abstract(kept + [value], if ready then 0 else since, Fires(spec, trigger), a.ready || ready)
  }

  function Step<T>(spec: BufferSpec, a: Abstract<T>, e: Event<T>): Abstract<T> {
    match e
    case Push(value, trigger) => PushModel(spec, a, value, trigger)
    case EndTick => a.(ready := false)
    case Init => Started()
  }

  function Run<T>(spec: BufferSpec, events: seq<Event<T>>): Abstract<T> {
    if events == [] then Started()
    else Step(spec, Run(spec, events[..|events| - 1]), events[|events| - 1])
  }

  function Min(a: int, b: int): int {
    if a < b then a else b
  }

  // The valid samples of the current frame, oldest first. Without mirroring
  // the view is the last whole block; with only one block of storage the
  // block being written has already replaced its beginning.
  function Frame<T>(spec: BufferSpec, samples: seq<T>): (f: seq<T>)
    requires spec.WellSized()
    ensures |f| == Min(|samples|, spec.frameSize)
  {
    var t, hop := |samples|, spec.hop;
    if t < spec.frameSize then samples
    else if spec.mirrored then samples[t - spec.frameSize..]
    else
      BlockBounds(t, hop);
      seq(hop, k requires 0 <= k < hop =>
        if spec.capacity >= 2 * hop || k >= t % hop then samples[(t / hop - 1) * hop + k]
        else samples[t / hop * hop + k])
  }

  lemma BlockBounds(t: nat, hop: nat)
    requires 0 < hop <= t
    ensures 0 <= (t / hop - 1) * hop
    ensures t / hop * hop == (t / hop - 1) * hop + hop == t - t % hop
  {
    assert t == t / hop * hop + t % hop;
    var q := t / hop;
    if q <= 0 {
      MulAtMost(q, 0, hop);
    }
  }

  class RingBuffer<T(0)> {
    const spec: BufferSpec
    const storage: array<T>
    var index: int
    var count: int
    var since: int
    var flush: bool
    var ready: bool
    ghost var samples: seq<T>

    ghost predicate Valid()
      reads this, storage
    {
      && spec.IsValid() && spec.WellSized()
      && storage.Length == spec.StorageSize()
      && index == |samples| % spec.capacity
      && count == Min(|samples|, spec.capacity)
      && 0 <= since <= spec.frameSize
      && (flush ==> spec.HasTriggerEntity())
      && (spec.mirrored ==> Mirrors(storage[..], spec.capacity))
      && Holds(storage[..], samples, spec.capacity)
      && SinceInvariant(spec, Abs())
    }

    ghost function Abs(): Abstract<T>
      reads this
      requires 0 <= since
    {
      Abstract(samples, since, flush, ready)
    }

    constructor (spec: BufferSpec, zero: T)
      requires spec.IsValid() && spec.WellSized()
      ensures Valid() && fresh(storage)
      ensures this.spec == spec && Abs() == Started()
    {
      this.spec := spec;
      storage := new T[spec.StorageSize()](_ => zero);
      index, count, since, flush, ready := 0, 0, 0, false, false;
      samples := [];
    }

    // The domain's init. Stored samples are left in place.
    method Reset()
      requires Valid()
      modifies this
      ensures Valid() && Abs() == Started()
    {
      index, count, since := 0, 0, 0;
      ready, flush := false, false;
      samples := [];
    }

    // One sample, in both copies of a mirrored ring.
    method Write(slot: int, value: T, ghost kept: seq<T>)
      requires spec.WellSized() && storage.Length == spec.StorageSize()
      requires slot == |kept| % spec.capacity && Holds(storage[..], kept, spec.capacity)
      requires spec.mirrored ==> Mirrors(storage[..], spec.capacity)
      modifies storage
      ensures storage[slot] == value
      ensures Holds(storage[..], kept + [value], spec.capacity)
      ensures spec.mirrored ==> Mirrors(storage[..], spec.capacity)
    {
      ghost var before := storage[..];
      storage[slot] := value;
      if spec.mirrored {
        storage[slot + spec.capacity] := value;
      }
      StoreHolds(before, storage[..], kept, spec.capacity, slot, value);
    }

    method Advance(slot: int, held: int, ghost pushed: nat)
      requires spec.WellSized()
      requires slot == pushed % spec.capacity && held == Min(pushed, spec.capacity)
      modifies this`index, this`count
      ensures index == (pushed + 1) % spec.capacity && count == Min(pushed + 1, spec.capacity)
    {
      ModNext(pushed, spec.capacity);
      var nextIndex := slot + 1;
      index := if nextIndex == spec.capacity then 0 else nextIndex;
      var more := held + 1;
      count := if more > spec.capacity then spec.capacity else more;
    }

    // Readiness after a push, and the flush a trigger leaves pending.
    method Raise(age: nat, trigger: bool, ghost pushed: nat)
      requires spec.WellSized() && count == Min(pushed, spec.capacity)
      modifies this`since, this`ready, this`flush
      ensures var frameReady := FrameReady(spec, pushed, age, trigger);
              && since == (if frameReady then 0 else age)
              && (ready <==> old(ready) || frameReady)
              && (flush <==> if spec.HasTriggerEntity() then trigger else old(flush))
    {
      var frameReady := count >= spec.frameSize && age >= spec.hop;
      if spec.HasTriggerEntity() {
        frameReady := frameReady || trigger;
        flush := trigger;
      }
      since := if frameReady then 0 else age;
      ready := ready || frameReady;
    }

    // `trigger` is the value of the trigger switch, if the buffer has one.
    method PushSample(value: T, trigger: bool)
      requires Valid()
      modifies this, storage
      ensures Valid()
      ensures Abs() == PushModel(spec, old(Abs()), value, trigger)
    {
      hide Holds, Mirrors, FrameReady;
      var slot, held, age := index, count, since;
      if spec.HasTriggerEntity() && flush {
        slot, held, age := 0, 0, 0;
      }
      ghost var kept := if flush then [] else samples;
      Write(slot, value, kept);
      Advance(slot, held, |kept|);
      Raise(age + 1, trigger, |kept| + 1);
      PushKeepsSince(spec, old(Abs()), value, trigger);
      samples := kept + [value];
    }

    // `ready` is a trigger: the domain's process function turns it off last.
    method EndOfTick()
      requires Valid()
      modifies this`ready
      ensures Valid()
      ensures Abs() == old(Abs()).(ready := false)
    {
      ready := false;
    }

    // Where the frame starts. The whole frame-sized window lies in the
    // storage, and its valid part is the frame.
    method View() returns (start: int)
      requires Valid()
      ensures 0 <= start && start + spec.frameSize <= storage.Length
      ensures storage[start..start + Min(|samples|, spec.frameSize)] == Frame(spec, samples)
    {
      hide Holds, Mirrors, SinceInvariant, Frame;
      var partial := count < spec.frameSize;
      if spec.mirrored {
        var n := if partial then count else spec.frameSize;
        start := index + spec.capacity - n;
        MirroredWindow(storage[..], samples, spec);
      } else {
        var blockEnd := index / spec.hop * spec.hop;
        start := blockEnd + (spec.capacity - spec.frameSize);
        start := if start >= spec.capacity then start - spec.capacity else start;
        start := if partial then 0 else start;
        BlockWindow(storage[..], samples, spec);
      }
    }

    // A snapshot of the frame; peeking consumes nothing.
    method CopyFrame(dest: array<T>)
      requires Valid()
      requires dest.Length == spec.frameSize && dest != storage
      modifies dest
      ensures Valid()
      ensures dest[..Min(|samples|, spec.frameSize)] == Frame(spec, samples)
    {
      var start := View();
      ghost var n := Min(|samples|, spec.frameSize);
      forall k | 0 <= k < dest.Length {
        dest[k] := storage[start + k];
      }
      assert dest[..n] == storage[start..start + n];
    }
  }

  // The newest samples, at most `capacity` of them, sit at their positions
  // taken modulo the capacity.
  ghost predicate Holds<T>(store: seq<T>, samples: seq<T>, capacity: int) {
    && 0 < capacity <= |store|
    && forall j :: 0 <= j < |samples| && |samples| - capacity <= j ==> store[j % capacity] == samples[j]
  }

  // The second copy of a mirrored ring repeats the first.
  ghost predicate Mirrors<T>(store: seq<T>, capacity: int) {
    && 0 < capacity && |store| == 2 * capacity
    && forall i :: 0 <= i < capacity ==> store[i] == store[i + capacity]
  }

  lemma StoreHolds<T>(
      before: seq<T>, after: seq<T>, kept: seq<T>, capacity: int, slot: int, value: T)
    requires 0 < capacity <= |before| == |after|
    requires Holds(before, kept, capacity) && slot == |kept| % capacity
    requires after[slot] == value
    requires forall i :: 0 <= i < capacity && i != slot ==> after[i] == before[i]
    ensures Holds(after, kept + [value], capacity)
  {
    var t := |kept|;
    forall j | 0 <= j <= t && t + 1 - capacity <= j
      ensures after[j % capacity] == (kept + [value])[j]
    {
      if j < t {
        ModBack(t, capacity, t - j);
      }
    }
  }

  lemma MirroredWindow<T>(store: seq<T>, samples: seq<T>, spec: BufferSpec)
    requires spec.WellSized() && spec.mirrored
    requires Holds(store, samples, spec.capacity) && Mirrors(store, spec.capacity)
    ensures var n := Min(|samples|, spec.frameSize);
            var start := |samples| % spec.capacity + spec.capacity - n;
            && 0 <= start && start + spec.frameSize <= |store|
            && store[start..start + n] == Frame(spec, samples)
  {
    var t, c := |samples|, spec.capacity;
    var n := Min(t, spec.frameSize);
    var start := t % c + c - n;
    assert start + spec.frameSize <= 2 * c by {
      if t < c {
        DivModUnique(t, c, 0, t);
      }
    }
    MirroredCells(store, samples, c, n);
    assert store[start..start + n] == samples[t - n..];
  }

  lemma MirroredCells<T>(store: seq<T>, samples: seq<T>, c: int, n: nat)
    requires Holds(store, samples, c) && Mirrors(store, c)
    requires n <= c && n <= |samples|
    ensures var start := |samples| % c + c - n;
            start + n <= |store| && store[start..start + n] == samples[|samples| - n..]
  {
    var start := |samples| % c + c - n;
    var window := store[start..start + n];
    forall k | 0 <= k < n
      ensures window[k] == samples[|samples| - n + k]
    {
      MirroredCell(store, samples, c, n - k);
    }
    assert window == samples[|samples| - n..];
  }

  lemma MirroredCell<T>(store: seq<T>, samples: seq<T>, c: int, back: nat)
    requires Holds(store, samples, c) && Mirrors(store, c)
    requires 0 < back <= c && back <= |samples|
    ensures store[|samples| % c + c - back] == samples[|samples| - back]
  {
    ModBack(|samples|, c, back);
    assert store[(|samples| - back) % c] == samples[|samples| - back];
  }

  lemma BlockWindow<T>(store: seq<T>, samples: seq<T>, spec: BufferSpec)
    requires spec.WellSized() && !spec.mirrored && |store| == spec.capacity
    requires Holds(store, samples, spec.capacity)
    ensures var t := |samples|;
            var end := t % spec.capacity / spec.hop * spec.hop + (spec.capacity - spec.frameSize);
            var start := if t < spec.frameSize then 0
                         else if end >= spec.capacity then end - spec.capacity else end;
            && 0 <= start && start + spec.frameSize <= |store|
            && store[start..start + Min(t, spec.frameSize)] == Frame(spec, samples)
  {
    var t, c, hop := |samples|, spec.capacity, spec.hop;
    if t < hop {
      forall k | 0 <= k < t
        ensures store[k] == samples[k]
      {
        DivModUnique(k, c, 0, k);
        assert store[k % c] == samples[k];
      }
      assert store[0..t] == samples;
    } else {
      BlockEnd(t, c, hop);
      hide Holds, Frame;
      WholeBlockWindow(store, samples, spec);
    }
  }

  lemma WholeBlockWindow<T>(store: seq<T>, samples: seq<T>, spec: BufferSpec)
    requires spec.WellSized() && !spec.mirrored && |store| == spec.capacity && |samples| >= spec.hop
    requires Holds(store, samples, spec.capacity)
    ensures var start := BlockStart(|samples|, spec.capacity, spec.hop);
            && 0 <= start && start + spec.hop <= |store|
            && store[start..start + spec.hop] == Frame(spec, samples)
  {
    var t, c, hop := |samples|, spec.capacity, spec.hop;
    BlockEnd(t, c, hop);
    var start := BlockStart(t, c, hop);
    var f := Frame(spec, samples);
    forall k | 0 <= k < hop
      ensures store[start + k] == f[k]
    {
      BlockCell(t, c, hop, k);
      BlockBounds(t, hop);
      var j := if c >= 2 * hop || k >= t % hop then (t / hop - 1) * hop + k else t / hop * hop + k;
      assert store[j % c] == samples[j];
    }
    assert store[start..start + hop] == f;
  }

  // The emitted start of the last whole block, once there is one.
  function BlockStart(t: nat, c: nat, hop: nat): int
    requires 0 < hop <= c
  {
    var end := t % c / hop * hop + (c - hop);
    if end >= c then end - c else end
  }

  lemma BlockEnd(t: nat, c: nat, hop: nat)
    requires 0 < hop <= c && c % hop == 0
    ensures t % c / hop * hop == t % c - t % hop
    ensures 0 <= t % c - t % hop <= c - hop
    ensures 0 <= BlockStart(t, c, hop) <= c - hop
  {
    ModOfMod(t, hop, c);
    var r := t % c;
    assert r == r / hop * hop + r % hop;
    LastMultiple(r, c, hop);
  }

  // The last multiple of hop at or below r leaves a whole hop before c.
  lemma LastMultiple(r: nat, c: nat, hop: nat)
    requires 0 < hop && r < c && c % hop == 0
    ensures 0 <= r / hop * hop <= c - hop
  {
    var m, q := c / hop, r / hop;
    assert c == m * hop && r == q * hop + r % hop;
    if q >= m {
      MulAtMost(m, q, hop);
    }
    MulAtMost(0, q, hop);
    MulAtMost(q, m - 1, hop);
    assert (m - 1) * hop == m * hop - hop;
  }

  // Cell k of the viewed block is the stored cell of the sample it shows.
  lemma BlockCell(t: nat, c: nat, hop: nat, k: nat)
    requires 0 < hop <= c && c % hop == 0 && hop <= t && k < hop
    ensures var j := if c >= 2 * hop || k >= t % hop then (t / hop - 1) * hop + k else t / hop * hop + k;
            0 <= j < t && t - c <= j && j % c == BlockStart(t, c, hop) + k
  {
    BlockBounds(t, hop);
    BlockEnd(t, c, hop);
    OneOrMoreBlocks(c, hop);
    var back := if c >= 2 * hop || k >= t % hop then t % hop + hop - k else t % hop - k;
    ModBack(t, c, back);
  }

  lemma OneOrMoreBlocks(c: nat, hop: nat)
    requires 0 < hop <= c && c % hop == 0
    ensures c >= 2 * hop || c == hop
  {
    var m := c / hop;
    assert c == m * hop;
    if m >= 2 {
      MulAtMost(2, m, hop);
    } else if m <= 0 {
      MulAtMost(m, 0, hop);
    }
  }

  // ---------------------------------------------------------------- readiness

  // Pushes since the last frame, as a function of the pushes alone.
  function SinceAt(spec: BufferSpec, pushed: nat): nat
    requires spec.hop > 0
  {
    if pushed < spec.frameSize then pushed else (pushed - spec.frameSize) % spec.hop
  }

  // Whether `pushed` samples end a frame of the sliding sequence.
  predicate EndsFrame(spec: BufferSpec, pushed: nat)
    requires spec.hop > 0
  {
    pushed >= spec.frameSize && (pushed - spec.frameSize) % spec.hop == 0
  }

  ghost predicate SinceInvariant<T>(spec: BufferSpec, a: Abstract<T>)
    requires spec.WellSized()
  {
    a.flushPending || a.since == SinceAt(spec, |a.samples|)
  }

  lemma SinceStep(spec: BufferSpec, pushed: nat)
    requires spec.WellSized()
    ensures SinceAt(spec, pushed) < spec.frameSize
    ensures (pushed + 1 >= spec.frameSize && SinceAt(spec, pushed) + 1 >= spec.hop) <==> EndsFrame(spec, pushed + 1)
    ensures SinceAt(spec, pushed + 1) == if EndsFrame(spec, pushed + 1) then 0 else SinceAt(spec, pushed) + 1
  {
    if pushed >= spec.frameSize {
      ModNext(pushed - spec.frameSize, spec.hop);
    }
  }

  lemma PushKeepsSince<T>(spec: BufferSpec, a: Abstract<T>, value: T, trigger: bool)
    requires spec.WellSized() && SinceInvariant(spec, a)
    ensures var a' := PushModel(spec, a, value, trigger);
            && SinceInvariant(spec, a')
            && a'.since < spec.frameSize
            && (a'.ready <==> a.ready || Fires(spec, trigger) || EndsFrame(spec, |a'.samples|))
  {
    SinceStep(spec, if a.flushPending then 0 else |a.samples|);
  }

  lemma {:induction false} RunKeepsSince<T>(spec: BufferSpec, events: seq<Event<T>>)
    requires spec.WellSized()
    ensures SinceInvariant(spec, Run(spec, events))
  {
    if events != [] {
      var before := events[..|events| - 1];
      RunKeepsSince(spec, before);
      match events[|events| - 1]
      case Push(value, trigger) => PushKeepsSince(spec, Run(spec, before), value, trigger);
      case EndTick =>
      case Init =>
    }
  }

  // In every run, a push raises `ready` exactly when a trigger fires or the
  // samples since the last flush end a frame.
  lemma ReadyExactly<T>(spec: BufferSpec, events: seq<Event<T>>, value: T, trigger: bool)
    requires spec.WellSized()
    requires !Run(spec, events).ready
    ensures var a := Run(spec, events + [Push(value, trigger)]);
            && (a.ready <==> Fires(spec, trigger) || EndsFrame(spec, |a.samples|))
            && a.since < spec.frameSize
  {
    RunKeepsSince(spec, events);
    assert (events + [Push(value, trigger)])[..|events|] == events;
    PushKeepsSince(spec, Run(spec, events), value, trigger);
  }

  // Once raised, `ready` holds until the end of the tick (or init).
  lemma {:induction false} ReadyIsSticky<T>(spec: BufferSpec, events: seq<Event<T>>, more: seq<Event<T>>)
    requires Run(spec, events).ready
    requires forall e :: e in more ==> e.Push?
    ensures Run(spec, events + more).ready
  {
    if more == [] {
      assert events + more == events;
    } else {
      var n := |more| - 1;
      ReadyIsSticky(spec, events, more[..n]);
      assert (events + more)[..|events| + n] == events + more[..n];
      assert (events + more)[|events| + n] == more[n];
    }
  }

  // ------------------------------------------------------- deferred flushing

  // The pushes of a run since its last init, oldest first.
  function Pushes<T>(events: seq<Event<T>>): (p: seq<Event<T>>)
    ensures forall e :: e in p ==> e.Push?
  {
    if events == [] then []
    else
      var n := |events| - 1;
      match events[n]
      case Push(_, _) => Pushes(events[..n]) + [events[n]]
      case EndTick => Pushes(events[..n])
      case Init => []
  }

  // `k` is where the samples of a push history begin: the push before it
  // fired the trigger, and no later push did, the very last one excepted.
  ghost predicate BlockBegins<T>(spec: BufferSpec, pushes: seq<Event<T>>, k: nat)
    requires forall e :: e in pushes ==> e.Push?
  {
    && k <= |pushes|
    && (k == |pushes| ==> k == 0)
    && (k > 0 ==> Fires(spec, pushes[k - 1].trigger))
    && forall i :: k <= i < |pushes| - 1 ==> !Fires(spec, pushes[i].trigger)
  }

  // After any run the samples are exactly the values pushed since the last
  // effective flush: a fired trigger keeps its partial frame readable and
  // empties the buffer at the next push.
  lemma {:induction false} SamplesSinceFlush<T>(spec: BufferSpec, events: seq<Event<T>>) returns (k: nat)
    ensures var p := Pushes(events);
            && BlockBegins(spec, p, k)
            && |Run(spec, events).samples| == |p| - k
            && (forall i :: 0 <= i < |p| - k ==> Run(spec, events).samples[i] == p[k + i].value)
            && (Run(spec, events).flushPending <==> p != [] && Fires(spec, p[|p| - 1].trigger))
  {
    if events == [] {
      k := 0;
    } else {
      var n := |events| - 1;
      var before := events[..n];
      k := SamplesSinceFlush(spec, before);
      if events[n].Init? {
        k := 0;
      } else if events[n].Push? && Run(spec, before).flushPending {
        k := |Pushes(before)|;
      }
    }
  }

  lemma BlockBeginIsUnique<T>(spec: BufferSpec, pushes: seq<Event<T>>, k: nat, k': nat)
    requires forall e :: e in pushes ==> e.Push?
    requires BlockBegins(spec, pushes, k) && BlockBegins(spec, pushes, k')
    ensures k == k'
  {
  }

  // ------------------------------------------------------------ ready frames

  // A frame that ends with the push is a window of the samples, in both
  // layouts: the first sample of the k-th frame is sample k * hop.
  lemma ReadyFrameIsWindow<T>(spec: BufferSpec, samples: seq<T>)
    requires spec.WellSized() && EndsFrame(spec, |samples|)
    ensures var k := (|samples| - spec.frameSize) / spec.hop;
            && k * spec.hop + spec.frameSize == |samples|
            && IsWindow(spec, samples, k, Frame(spec, samples))
  {
    var t, hop := |samples|, spec.hop;
    var k := (t - spec.frameSize) / hop;
    assert k * hop == t - spec.frameSize;
    if spec.mirrored {
      assert Frame(spec, samples) == samples[t - spec.frameSize..];
    } else {
      DivModShift(t - hop, hop, 1);
      BlockBounds(t, hop);
      LastBlockFrame(spec, samples);
    }
  }

  lemma LastBlockFrame<T>(spec: BufferSpec, samples: seq<T>)
    requires spec.WellSized() && !spec.mirrored && |samples| >= spec.hop && |samples| % spec.hop == 0
    ensures Frame(spec, samples) == samples[|samples| - spec.hop..]
  {
    BlockBounds(|samples|, spec.hop);
  }

  // The frames a consumer reads when every sample is pushed with the trigger
  // off and the view is taken in each tick that raised `ready`.
  function ReadyFrames<T>(spec: BufferSpec, input: seq<T>): seq<seq<T>>
    requires spec.WellSized()
  {
    if input == [] then []
    else
      var n := |input| - 1;
      var a := Run(spec, Ticks(input[..n]));
      var a' := PushModel(spec, a, input[n], false);
      ReadyFrames(spec, input[..n]) + if a'.ready then [Frame(spec, a'.samples)] else []
  }

  // One push and one end of tick for each sample.
  function Ticks<T>(input: seq<T>): seq<Event<T>> {
    if input == [] then []
    else Ticks(input[..|input| - 1]) + [Push(input[|input| - 1], false), EndTick]
  }

  function WindowCount(spec: BufferSpec, length: nat): nat
    requires spec.hop > 0
  {
    if length < spec.frameSize then 0 else (length - spec.frameSize) / spec.hop + 1
  }

  // The k-th window of frameSize samples: it starts at sample k * hop.
  ghost predicate IsWindow<T>(spec: BufferSpec, input: seq<T>, k: nat, frame: seq<T>) {
    var first := k * spec.hop;
    0 <= first && 0 <= spec.frameSize && first + spec.frameSize <= |input|
    && frame == input[first..first + spec.frameSize]
  }

  ghost predicate AreWindows<T>(spec: BufferSpec, input: seq<T>, frames: seq<seq<T>>)
    requires spec.hop > 0
  {
    && |frames| == WindowCount(spec, |input|)
    && forall k :: 0 <= k < |frames| ==> IsWindow(spec, input, k, frames[k])
  }

  lemma WindowOfPrefix<T>(spec: BufferSpec, input: seq<T>, n: nat, k: nat, frame: seq<T>)
    requires n <= |input| && IsWindow(spec, input[..n], k, frame)
    ensures IsWindow(spec, input, k, frame)
  {
    var first := k * spec.hop;
    assert input[..n][first..first + spec.frameSize] == input[first..first + spec.frameSize];
  }

  lemma {:induction false} TicksKeepSamples<T>(spec: BufferSpec, input: seq<T>)
    requires spec.WellSized()
    ensures var a := Run(spec, Ticks(input));
            a.samples == input && !a.flushPending && !a.ready && SinceInvariant(spec, a)
  {
    if input != [] {
      var n := |input| - 1;
      TicksKeepSamples(spec, input[..n]);
      var before, push := Ticks(input[..n]), Push(input[n], false);
      assert Ticks(input)[..|before| + 1] == before + [push];
      assert (before + [push])[..|before|] == before;
      PushKeepsSince(spec, Run(spec, before), input[n], false);
      assert input[..n] + [input[n]] == input;
    }
  }

  // No window is skipped, repeated or reordered, and nothing else is shown.
  lemma {:induction false} ReadyFramesAreAllWindows<T>(spec: BufferSpec, input: seq<T>)
    requires spec.WellSized()
    ensures AreWindows(spec, input, ReadyFrames(spec, input))
  {
    if input != [] {
      var n := |input| - 1;
      ReadyFramesAreAllWindows(spec, input[..n]);
      TicksKeepSamples(spec, input[..n]);
      PushKeepsSince(spec, Run(spec, Ticks(input[..n])), input[n], false);
      assert input[..n] + [input[n]] == input;
      OneMoreSample(spec, input, ReadyFrames(spec, input[..n]));
    }
  }

  lemma OneMoreSample<T>(spec: BufferSpec, input: seq<T>, frames: seq<seq<T>>)
    requires spec.WellSized() && input != []
    requires AreWindows(spec, input[..|input| - 1], frames)
    ensures AreWindows(spec, input, frames + if EndsFrame(spec, |input|) then [Frame(spec, input)] else [])
  {
    var n := |input| - 1;
    WindowCountStep(spec, n);
    forall k | 0 <= k < |frames|
      ensures IsWindow(spec, input, k, frames[k])
    {
      WindowOfPrefix(spec, input, n, k, frames[k]);
    }
    if EndsFrame(spec, |input|) {
      ReadyFrameIsWindow(spec, input);
    }
  }

  lemma WindowCountStep(spec: BufferSpec, length: nat)
    requires spec.WellSized()
    ensures WindowCount(spec, length + 1) == WindowCount(spec, length) + if EndsFrame(spec, length + 1) then 1 else 0
    ensures EndsFrame(spec, length + 1) ==> WindowCount(spec, length) == (length + 1 - spec.frameSize) / spec.hop
  {
    if length >= spec.frameSize {
      var x, hop := length - spec.frameSize, spec.hop;
      var q, r := x / hop, x % hop;
      if r + 1 == hop {
        assert x + 1 == (q + 1) * hop + 0;
        DivModUnique(x + 1, hop, q + 1, 0);
      } else {
        DivModUnique(x + 1, hop, q, r + 1);
      }
    } else if length + 1 == spec.frameSize {
      DivModUnique(0, spec.hop, 0, 0);
    }
  }

  // A view taken between block ends can be torn: it shows the last whole
  // block for every content exactly when the storage has room for two blocks
  // or the pushes end one.
  lemma FrameIsLastBlockExactly<T(!new)>(spec: BufferSpec, t: nat, x: T, y: T)
    requires spec.WellSized() && !spec.mirrored && t >= spec.hop && x != y
    ensures 0 <= (t / spec.hop - 1) * spec.hop && t / spec.hop * spec.hop <= t
    ensures (forall s: seq<T> :: |s| == t ==>
               Frame(spec, s) == s[(t / spec.hop - 1) * spec.hop..t / spec.hop * spec.hop])
            <==> spec.capacity >= 2 * spec.hop || t % spec.hop == 0
  {
    var hop := spec.hop;
    BlockBounds(t, hop);
    var b, e := (t / hop - 1) * hop, t / hop * hop;
    if spec.capacity >= 2 * hop || t % hop == 0 {
      forall s: seq<T> | |s| == t
        ensures Frame(spec, s) == s[b..e]
      {
      }
    } else {
      var s := seq(t, i => if i < e then x else y);
      assert Frame(spec, s)[0] == s[e] == y;
      assert s[b..e][0] == x;
    }
  }
}
