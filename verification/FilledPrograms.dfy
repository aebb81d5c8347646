// The whole program with its constants filled by the compiler. Streams are
// collected in one order (top level first, then each domain's onLoad) and run
// in another (a domain's onLoad when it is loaded, its top-level streams on
// every tick), so runs are given as schedules over the collection order.
module FilledPrograms {
  import opened ConstantFills
  import opened Wrappers

  // The streams are listed in collection order.
  datatype Program = Program(decls: Decls, pure: string -> bool, streams: seq<Node>) {
    function Filled(): set<string> {
      FilledBy(decls, pure, streams)
    }

    predicate Collects(i: nat)
      requires i < |streams|
    {
      Collectable(decls, pure, streams[i], FilledBy(decls, pure, streams[..i]))
    }

    // What the compiler computes: it runs the collected streams alone.
    function Computed(sem: Semantics, st: Store): Store {
      RunAll(decls, sem, Collected(decls, pure, streams), st)
    }
  }

  // Which stream runs at each moment.
  type Schedule = seq<nat>

  ghost predicate Fits(p: Program, run: Schedule) {
    forall k :: 0 <= k < |run| ==> run[k] < |p.streams|
  }

  function Execute(p: Program, sem: Semantics, run: Schedule, st: Store): Store
    requires Fits(p, run)
  {
    if run == [] then st
    else
      var n := |run| - 1;
      RunStream(p.decls, sem, p.streams[run[n]], Execute(p, sem, run[..n], st))
  }

  // The same schedule after the compiler's work: collected streams are gone,
  // the others are folded.
  function ExecuteRest(p: Program, sem: Semantics, values: map<string, Value>, run: Schedule, st: Store): Store
    requires Fits(p, run)
  {
    if run == [] then st
    else
      var n := |run| - 1;
      var before := ExecuteRest(p, sem, values, run[..n], st);
      if p.Collects(run[n]) then before
      else RunStream(p.decls, sem, Fold(values, p.streams[run[n]]), before)
  }

  // The constants whose filling stream the schedule has run.
  function FilledIn(p: Program, run: Schedule): set<string>
    requires Fits(p, run)
  {
    if run == [] then {}
    else
      var n := |run| - 1;
      FilledIn(p, run[..n]) + if p.Collects(run[n]) then {Destination(p.streams[run[n]]).name} else {}
  }

  function Pending(p: Program, run: Schedule): set<string>
    requires Fits(p, run)
  {
    p.Filled() - FilledIn(p, run)
  }

  // What a stream uses: a collected one does not use the block it fills.
  ghost function Used(p: Program, i: nat): iset<Key>
    requires i < |p.streams|
  {
    Uses(p.streams[i], p.Collects(i))
  }

  predicate Touches(n: Node, key: Key) {
    key in Captured(n) || key in WrittenBy(n)
  }

  // Constants have one writer, and what a call keeps belongs to one stream.
  ghost predicate WellWritten(p: Program) {
    && OneWriter(p.decls, p.pure, p.streams)
    && forall i, j, key: Key ::
         0 <= i < |p.streams| && 0 <= j < |p.streams| && i != j && key.Kept? && Touches(p.streams[i], key)
         ==> !Touches(p.streams[j], key)
  }

  // ------------------------------------------------ when the work is sound

  // A collected stream whose calls read, inside, only constants given or
  // filled before it, and write, inside, nothing but state they keep.
  ghost predicate Contained(p: Program, i: nat)
    requires i < |p.streams|
  {
    && (forall key :: key in Captured(p.streams[i]) ==> !ReadsAhead(p, i, key))
    && forall key :: key in WrittenBy(p.streams[i]) ==> !WritesAside(p, i, key)
  }

  ghost predicate ReadsAhead(p: Program, i: nat, key: Key)
    requires i < |p.streams|
  {
    key.Block? && IsBlock(p.decls, key) && !Known(p.decls, key, FilledBy(p.decls, p.pure, p.streams[..i]))
  }

  predicate WritesAside(p: Program, i: nat, key: Key)
    requires i < |p.streams|
  {
    key.Block? && IsBlock(p.decls, key)
    && !(Destination(p.streams[i]).Name? && key == Block(Destination(p.streams[i]).name))
  }

  // A call of the stream reads state that a run of the stream writes.
  ghost predicate Remembers(n: Node) {
    exists key: Key :: key.Kept? && key in Captured(n) && key in WrittenBy(n)
  }

  // No stream uses a constant before the stream that fills it has run, and no
  // collected stream that remembers runs twice.
  ghost predicate OnTime(p: Program, run: Schedule, k: nat)
    requires Fits(p, run) && k < |run|
  {
    && (forall name :: name in Pending(p, run[..k]) ==> Block(name) !in Used(p, run[k]))
    && (p.Collects(run[k]) && Remembers(p.streams[run[k]]) ==> run[k] !in run[..k])
  }

  ghost predicate AllContained(p: Program) {
    forall i: nat :: i < |p.streams| && p.Collects(i) ==> Contained(p, i)
  }

  ghost predicate InOrder(p: Program, run: Schedule)
    requires Fits(p, run)
  {
    AllContained(p) && forall k :: 0 <= k < |run| ==> OnTime(p, run, k)
  }

  // State that only removed calls use.
  ghost predicate Removed(p: Program, key: Key) {
    key.Kept? && exists i: nat :: i < |p.streams| && p.Collects(i) && Touches(p.streams[i], key)
  }

  // Where the two programs may differ after a run.
  ghost function Except(p: Program, run: Schedule): iset<Key>
    requires Fits(p, run)
  {
    iset key: Key | (key.Block? && key.name in Pending(p, run)) || Removed(p, key)
  }

  // The stores the two programs and the compiler start from: the compiler has
  // the given constants and fresh state, the transformed program also the
  // computed constants.
  ghost predicate Starts(p: Program, compile: Semantics, a: Store, b: Store, start: Store) {
    && Agree(p.decls, {}, a, b)
    && (forall key: Key :: key.Kept? ==> Read(p.decls, a, key) == Read(p.decls, b, key))
    && forall key :: Read(p.decls, start, key)
                  == Read(p.decls, if key.Block? && key.name in p.Filled() then p.Computed(compile, b) else a, key)
  }

  // The values folded are computed ones, and no stream that stays writes them.
  ghost predicate FoldsComputed(p: Program, compile: Semantics, b: Store, values: map<string, Value>) {
    && (forall name :: name in values ==>
          name in p.Filled() && values[name] == Read(p.decls, p.Computed(compile, b), Block(name)))
    && forall i: nat :: i < |p.streams| && !p.Collects(i) ==> Leaves(values, WrittenBy(p.streams[i]))
  }

  // ------------------------------------------------------ the compiler's run

  lemma {:induction false} CollectLast(p: Program, sem: Semantics, st: Store)
    requires p.streams != []
    ensures var last := |p.streams| - 1;
            var before := p.(streams := p.streams[..last]).Computed(sem, st);
            p.Computed(sem, st) == if p.Collects(last) then RunStream(p.decls, sem, p.streams[last], before) else before
  {
    var fills := Collected(p.decls, p.pure, p.streams[..|p.streams| - 1]);
    assert (fills + [p.streams[|p.streams| - 1]])[..|fills|] == fills && fills + [] == fills;
  }

  // A key that no later collected stream writes keeps its value for the rest
  // of the compiler's run.
  lemma {:induction false} ComputedStays(p: Program, sem: Semantics, n: nat, st: Store, key: Key)
    requires n <= |p.streams|
    requires forall i: nat :: n <= i < |p.streams| && p.Collects(i) ==>
               key !in WrittenBy(p.streams[i]) || !IsBlock(p.decls, key)
    ensures Read(p.decls, p.Computed(sem, st), key)
         == Read(p.decls, p.(streams := p.streams[..n]).Computed(sem, st), key)
    decreases |p.streams|
  {
    if n == |p.streams| {
      assert p.streams[..n] == p.streams;
    } else {
      var last := |p.streams| - 1;
      var before := p.(streams := p.streams[..last]);
      assert before.streams[..n] == p.streams[..n];
      forall i: nat | n <= i < last && before.Collects(i)
        ensures key !in WrittenBy(before.streams[i]) || !IsBlock(p.decls, key)
      {
        assert before.streams[..i] == p.streams[..i] && p.Collects(i);
      }
      ComputedStays(before, sem, n, st, key);
      CollectLast(p, sem, st);
      if p.Collects(last) && IsBlock(p.decls, key) {
        StreamWritesOnly(p.decls, sem, p.streams[last], before.Computed(sem, st), key);
      }
    }
  }

  // In particular constants given or filled by then.
  lemma KnownStays(p: Program, sem: Semantics, n: nat, st: Store, key: Key)
    requires n <= |p.streams| && WellWritten(p)
    requires key in KnownKeys(p.decls, FilledBy(p.decls, p.pure, p.streams[..n]))
    ensures Read(p.decls, p.Computed(sem, st), key)
         == Read(p.decls, p.(streams := p.streams[..n]).Computed(sem, st), key)
  {
    forall i: nat | n <= i < |p.streams| && p.Collects(i)
      ensures key !in WrittenBy(p.streams[i]) || !IsBlock(p.decls, key)
    {
      if IsBlock(p.decls, key) && key.name in FilledBy(p.decls, p.pure, p.streams[..n]) {
        var j := FilledAt(p.decls, p.pure, p.streams[..n], key.name);
        assert p.streams[..n][j] == p.streams[j];
      }
    }
    ComputedStays(p, sem, n, st, key);
  }

  lemma {:induction false} KeptUntouched(p: Program, sem: Semantics, n: nat, st: Store, key: Key)
    requires n <= |p.streams| && forall i: nat :: i < n ==> key !in WrittenBy(p.streams[i])
    ensures Read(p.decls, p.(streams := p.streams[..n]).Computed(sem, st), key) == Read(p.decls, st, key)
  {
    var upTo := p.(streams := p.streams[..n]);
    forall i: nat | i < n
      ensures key !in WrittenBy(upTo.streams[i])
    {
      assert upTo.streams[i] == p.streams[i];
    }
    ComputedStays(upTo, sem, 0, st, key);
    assert upTo.streams[..0] == [];
  }

  // A collected stream, run where the blocks it uses have their computed
  // values and its state is fresh, gives its constant the computed value too.
  lemma FillAgrees(p: Program, load: Semantics, compile: Semantics, i: nat, a: Store, b: Store)
    requires i < |p.streams| && p.Collects(i) && Contained(p, i) && WellWritten(p)
    requires SamePure(p.pure, load, compile)
    requires forall key :: key in Used(p, i) ==>
               Read(p.decls, a, key) == Read(p.decls, if key.Kept? then b else p.Computed(compile, b), key)
    ensures var key := Block(Destination(p.streams[i]).name);
            (Read(p.decls, RunStream(p.decls, load, p.streams[i], a), key)
             == Read(p.decls, p.Computed(compile, b), key))
  {
    var stream, name := p.streams[i], Destination(p.streams[i]).name;
    var before, upTo := p.(streams := p.streams[..i]), p.(streams := p.streams[..i + 1]);
    assert upTo.streams[..i] == before.streams && upTo.streams[i] == stream;
    CollectLast(upTo, compile, b);
    assert name in FilledBy(p.decls, p.pure, upTo.streams);
    KnownStays(p, compile, i + 1, b, Block(name));
    UsedBefore(p, load, compile, i, a, b);
    hide WellWritten, Contained, Collectable, FilledBy;
    RunAgrees(p, load, compile, i, a, before.Computed(compile, b));
  }

  lemma UsedBefore(p: Program, load: Semantics, compile: Semantics, i: nat, a: Store, b: Store)
    requires i < |p.streams| && p.Collects(i) && Contained(p, i) && WellWritten(p)
    requires forall key :: key in Used(p, i) ==>
               Read(p.decls, a, key) == Read(p.decls, if key.Kept? then b else p.Computed(compile, b), key)
    ensures Same(p.decls, Used(p, i), a, p.(streams := p.streams[..i]).Computed(compile, b))
  {
    var filled := FilledBy(p.decls, p.pure, p.streams[..i]);
    ShowsOnlyKnown(p.decls, p.streams[i], filled, true);
    forall key | key in Used(p, i)
      ensures Read(p.decls, a, key) == Read(p.decls, p.(streams := p.streams[..i]).Computed(compile, b), key)
    {
      if key.Kept? {
        assert Touches(p.streams[i], key);
        assert forall j: nat :: j < i ==> !Touches(p.streams[j], key);
        KeptUntouched(p, compile, i, b, key);
      } else {
        if key in Captured(p.streams[i]) {
          assert !ReadsAhead(p, i, key);
        } else {
          assert key.name in Shown(p.streams[i], true);
        }
        KnownStays(p, compile, i, b, key);
      }
    }
  }

  lemma RunAgrees(p: Program, load: Semantics, compile: Semantics, i: nat, a: Store, b: Store)
    requires i < |p.streams| && p.streams[i].Stream? && Destination(p.streams[i]).Name? && p.Collects(i)
    requires CallsOnlyPure(p.streams[i], p.pure) && SamePure(p.pure, load, compile)
    requires Same(p.decls, Used(p, i), a, b)
    ensures var key := Block(Destination(p.streams[i]).name);
            (Read(p.decls, RunStream(p.decls, load, p.streams[i], a), key)
             == Read(p.decls, RunStream(p.decls, compile, p.streams[i], b), key))
  {
    var stream, keys := p.streams[i], Used(p, i);
    AmongUsed(stream, keys);
    EvalAgrees(p.decls, p.pure, load, compile, stream.left, keys, a, b);
    var (v, a') := Eval(p.decls, load, stream.left, a);
    var b' := Eval(p.decls, compile, stream.left, b).1;
    FeedAgrees(p.decls, p.pure, load, compile, stream.right, keys, true, v, a', b');
  }

  lemma AmongUsed(n: Node, keys: iset<Key>)
    requires n.Stream? && keys == Uses(n, true)
    ensures Among(n.left, false, keys) && Among(n.right, true, keys)
  {
    forall name | name in Shown(n.left, false) || name in Shown(n.right, true)
      ensures Block(name) in keys
    {
      assert name in Shown(n, true);
    }
    forall key | key in Captured(n.left) || key in Captured(n.right)
      ensures key in keys
    {
      assert key in Captured(n);
    }
  }

  // ------------------------------------------------------------ the two runs

  // After a run the transformed program's store c holds every computed value,
  // and differs from the original's only where it may; given constants, and
  // the state of fills that have not run, are untouched.
  ghost predicate Settled(p: Program, run: Schedule, computed: Store, b: Store, a: Store, c: Store)
    requires Fits(p, run)
  {
    && Differ(p.decls, Except(p, run), a, c)
    && (forall name :: name in p.Filled() ==> Read(p.decls, c, Block(name)) == Read(p.decls, computed, Block(name)))
    && (forall key :: key in KnownKeys(p.decls, {}) ==> Read(p.decls, a, key) == Read(p.decls, computed, key))
    && FreshState(p, run, b, a)
  }

  ghost predicate FreshState(p: Program, run: Schedule, b: Store, a: Store) {
    forall i: nat, key: Key ::
      i < |p.streams| && p.Collects(i) && key.Kept? && key in Captured(p.streams[i])
      && (i !in run || key !in WrittenBy(p.streams[i]))
      ==> Read(p.decls, a, key) == Read(p.decls, b, key)
  }

  lemma KeepsGiven(p: Program, sem: Semantics, i: nat, st: Store)
    requires i < |p.streams| && WellWritten(p)
    ensures Same(p.decls, KnownKeys(p.decls, {}), st, RunStream(p.decls, sem, p.streams[i], st))
  {
    forall key | key in KnownKeys(p.decls, {})
      ensures Read(p.decls, st, key) == Read(p.decls, RunStream(p.decls, sem, p.streams[i], st), key)
    {
      if IsBlock(p.decls, key) {
        assert key == Block(key.name);
        StreamWritesOnly(p.decls, sem, p.streams[i], st, key);
      }
    }
  }

  // Only the stream that fills a constant writes it.
  lemma OthersLeaveFilled(p: Program, i: nat, name: string)
    requires i < |p.streams| && WellWritten(p) && name in p.Filled()
    requires p.Collects(i) ==> Destination(p.streams[i]).name != name
    ensures Block(name) !in WrittenBy(p.streams[i])
  {
    var j := FilledAt(p.decls, p.pure, p.streams, name);
  }

  lemma KeepsFresh(p: Program, sem: Semantics, run: Schedule, i: nat, b: Store, a: Store)
    requires i < |p.streams| && WellWritten(p) && FreshState(p, run, b, a)
    ensures FreshState(p, run + [i], b, RunStream(p.decls, sem, p.streams[i], a))
  {
    forall j: nat, key: Key |
      j < |p.streams| && p.Collects(j) && key.Kept? && key in Captured(p.streams[j])
      && (j !in run + [i] || key !in WrittenBy(p.streams[j]))
      ensures Read(p.decls, RunStream(p.decls, sem, p.streams[i], a), key) == Read(p.decls, b, key)
    {
      assert Touches(p.streams[j], key);
      assert i != j ==> !Touches(p.streams[i], key);
      StreamWritesOnly(p.decls, sem, p.streams[i], a, key);
    }
  }

  lemma {:induction false} FilledMore(p: Program, run: Schedule, i: nat)
    requires Fits(p, run) && i < |p.streams|
    ensures Fits(p, run + [i])
    ensures FilledIn(p, run + [i]) == FilledIn(p, run) + if p.Collects(i) then {Destination(p.streams[i]).name} else {}
  {
    assert (run + [i])[..|run|] == run;
  }

  ghost predicate UsesSettled(p: Program, run: Schedule, i: nat)
    requires Fits(p, run) && i < |p.streams|
  {
    && (forall name :: name in Pending(p, run) ==> Block(name) !in Used(p, i))
    && (p.Collects(i) && Remembers(p.streams[i]) ==> i !in run)
  }

  // A stream that stays does the same in both programs.
  lemma StayingSettles(
      p: Program, sem: Semantics, values: map<string, Value>, run: Schedule, i: nat, computed: Store,
      b: Store, a: Store, c: Store)
    requires Fits(p, run) && i < |p.streams| && WellWritten(p) && !p.Collects(i)
    requires Settled(p, run, computed, b, a, c) && UsesSettled(p, run, i)
    requires Leaves(values, WrittenBy(p.streams[i]))
    requires forall name :: name in values ==>
               name in p.Filled() && values[name] == Read(p.decls, computed, Block(name))
    ensures Fits(p, run + [i])
    ensures Settled(p, run + [i], computed, b,
                    RunStream(p.decls, sem, p.streams[i], a),
                    RunStream(p.decls, sem, Fold(values, p.streams[i]), c))
  {
    FilledMore(p, run, i);
    var stream := p.streams[i];
    forall name | name in values
      ensures IsBlock(p.decls, Block(name))
    {
      var j := FilledAt(p.decls, p.pure, p.streams, name);
    }
    FoldKeepsStream(p.decls, sem, values, stream, c);
    NoneExcepted(p, run, i);
    SameEffect(p.decls, p.pure, sem, stream, Except(p, run), a, c);
    KeepsGiven(p, sem, i, a);
    KeepsFresh(p, sem, run, i, b, a);
    forall name | name in p.Filled()
      ensures Read(p.decls, RunStream(p.decls, sem, stream, c), Block(name)) == Read(p.decls, c, Block(name))
    {
      OthersLeaveFilled(p, i, name);
      StreamWritesOnly(p.decls, sem, stream, c, Block(name));
    }
    SameExcept(p, run, run + [i]);
  }

  lemma SameExcept(p: Program, run: Schedule, more: Schedule)
    requires Fits(p, run) && Fits(p, more) && FilledIn(p, run) == FilledIn(p, more)
    ensures Except(p, run) == Except(p, more)
  {
  }

  lemma NoneExcepted(p: Program, run: Schedule, i: nat)
    requires Fits(p, run) && i < |p.streams| && WellWritten(p) && !p.Collects(i) && UsesSettled(p, run, i)
    ensures Uses(p.streams[i], false) !! Except(p, run)
  {
    forall key | key in Uses(p.streams[i], false)
      ensures key !in Except(p, run)
    {
      if key.Block? {
        assert key == Block(key.name);
      } else {
        assert Touches(p.streams[i], key);
      }
    }
  }

  // A collected stream brings the original up to what was computed.
  lemma CollectedSettles(
      p: Program, load: Semantics, compile: Semantics, run: Schedule, i: nat, b: Store, a: Store, c: Store)
    requires Fits(p, run) && i < |p.streams| && WellWritten(p) && p.Collects(i) && Contained(p, i)
    requires SamePure(p.pure, load, compile)
    requires Settled(p, run, p.Computed(compile, b), b, a, c) && UsesSettled(p, run, i)
    ensures Fits(p, run + [i])
    ensures Settled(p, run + [i], p.Computed(compile, b), b, RunStream(p.decls, load, p.streams[i], a), c)
  {
    FilledMore(p, run, i);
    UsedIsSettled(p, run, i, p.Computed(compile, b), b, a, c);
    FillAgrees(p, load, compile, i, a, b);
    KeepsGiven(p, load, i, a);
    KeepsFresh(p, load, run, i, b, a);
    DestinationIsFilled(p, i);
    forall key | key !in Except(p, run + [i])
      ensures Read(p.decls, c, key) == Read(p.decls, RunStream(p.decls, load, p.streams[i], a), key)
    {
      CollectedDiffers(p, load, run, i, a, c, key);
    }
  }

  lemma CollectedDiffers(p: Program, load: Semantics, run: Schedule, i: nat, a: Store, c: Store, key: Key)
    requires Fits(p, run) && Fits(p, run + [i]) && i < |p.streams| && p.Collects(i) && Contained(p, i)
    requires FilledIn(p, run + [i]) == FilledIn(p, run) + {Destination(p.streams[i]).name}
    requires Differ(p.decls, Except(p, run), a, c) && key !in Except(p, run + [i])
    requires var dest := Block(Destination(p.streams[i]).name);
             Read(p.decls, c, dest) == Read(p.decls, RunStream(p.decls, load, p.streams[i], a), dest)
    ensures Read(p.decls, c, key) == Read(p.decls, RunStream(p.decls, load, p.streams[i], a), key)
  {
    var dest := Block(Destination(p.streams[i]).name);
    if key != dest && IsBlock(p.decls, key) {
      if key in WrittenBy(p.streams[i]) {
        assert !WritesAside(p, i, key);
        assert Touches(p.streams[i], key);
        assert Removed(p, key);
      }
      StreamWritesOnly(p.decls, load, p.streams[i], a, key);
      assert key !in Except(p, run);
    }
  }

  lemma {:induction false} DestinationIsFilled(p: Program, i: nat)
    requires i < |p.streams| && p.Collects(i)
    ensures Destination(p.streams[i]).name in p.Filled()
  {
    var upTo := p.streams[..i + 1];
    assert upTo[..i] == p.streams[..i] && upTo[i] == p.streams[i];
    FilledGrows(p.decls, p.pure, p.streams, i + 1);
  }

  // What a collected stream uses has its computed value in the original.
  lemma UsedIsSettled(p: Program, run: Schedule, i: nat, computed: Store, b: Store, a: Store, c: Store)
    requires Fits(p, run) && i < |p.streams| && p.Collects(i) && Contained(p, i) && UsesSettled(p, run, i)
    requires Settled(p, run, computed, b, a, c)
    ensures forall key :: key in Used(p, i) ==>
              Read(p.decls, a, key) == Read(p.decls, if key.Kept? then b else computed, key)
  {
    ShowsOnlyKnown(p.decls, p.streams[i], FilledBy(p.decls, p.pure, p.streams[..i]), true);
    FilledGrows(p.decls, p.pure, p.streams, i);
    forall key | key in Used(p, i)
      ensures Read(p.decls, a, key) == Read(p.decls, if key.Kept? then b else computed, key)
    {
      if key.Block? && IsBlock(p.decls, key) {
        assert key == Block(key.name);
        if key in Captured(p.streams[i]) {
          assert !ReadsAhead(p, i, key);
        } else {
          assert key.name in Shown(p.streams[i], true);
        }
        if key.name in p.Filled() {
          assert key !in Except(p, run);
        } else {
          assert key in KnownKeys(p.decls, {});
        }
      }
    }
  }

  // The main invariant of the two programs, over every schedule in order.
  lemma {:induction false} RunSettles(
      p: Program, load: Semantics, compile: Semantics, values: map<string, Value>, run: Schedule,
      a: Store, b: Store, start: Store)
    requires Fits(p, run) && WellWritten(p) && SamePure(p.pure, load, compile)
    requires Starts(p, compile, a, b, start) && FoldsComputed(p, compile, b, values) && InOrder(p, run)
    ensures Settled(p, run, p.Computed(compile, b), b,
                    Execute(p, load, run, a), ExecuteRest(p, load, values, run, start))
  {
    hide FilledBy, Collectable, RunStream, Settled, WellWritten, Contained, Starts;
    if run == [] {
      NothingRun(p, compile, a, b, start);
    } else {
      var n := |run| - 1;
      var before, i := run[..n], run[n];
      assert before + [i] == run;
      PrefixInOrder(p, run, n);
      RunSettles(p, load, compile, values, before, a, b, start);
      assert OnTime(p, run, n) && UsesSettled(p, before, i);
      var a', c' := Execute(p, load, before, a), ExecuteRest(p, load, values, before, start);
      if p.Collects(i) {
        CollectedSettles(p, load, compile, before, i, b, a', c');
      } else {
        StayingSettles(p, load, values, before, i, p.Computed(compile, b), b, a', c');
      }
    }
  }

  lemma PrefixInOrder(p: Program, run: Schedule, n: nat)
    requires Fits(p, run) && n <= |run| && InOrder(p, run)
    ensures InOrder(p, run[..n])
  {
    forall k | 0 <= k < n
      ensures OnTime(p, run[..n], k)
    {
      assert OnTime(p, run, k) && run[..n][..k] == run[..k];
    }
  }

  lemma NothingRun(p: Program, compile: Semantics, a: Store, b: Store, start: Store)
    requires WellWritten(p) && Starts(p, compile, a, b, start)
    ensures Settled(p, [], p.Computed(compile, b), b, a, start)
  {
    forall key | key in KnownKeys(p.decls, {})
      ensures Read(p.decls, a, key) == Read(p.decls, p.Computed(compile, b), key)
    {
      assert p.streams[..0] == [];
      KnownStays(p, compile, 0, b, key);
    }
  }

  // ---------------------------------------------------------------- results

  // The two programs agree at every moment of a run, except on constants not
  // filled yet and state that only removed calls use.
  ghost predicate AgreesThroughout(
    p: Program, load: Semantics, values: map<string, Value>, run: Schedule, a: Store, start: Store)
    requires Fits(p, run)
  {
    forall k :: 0 <= k <= |run| ==>
      Differ(p.decls, Except(p, run[..k]), Execute(p, load, run[..k], a), ExecuteRest(p, load, values, run[..k], start))
  }

  lemma TransformedProgramAgrees(
      p: Program, load: Semantics, compile: Semantics, values: map<string, Value>, run: Schedule,
      a: Store, b: Store, start: Store)
    requires Fits(p, run) && WellWritten(p) && SamePure(p.pure, load, compile)
    requires Starts(p, compile, a, b, start) && FoldsComputed(p, compile, b, values) && InOrder(p, run)
    ensures AgreesThroughout(p, load, values, run, a, start)
  {
    hide Settled, FilledBy, Collectable, Execute, ExecuteRest, InOrder, WellWritten, Starts;
    forall k | 0 <= k <= |run|
      ensures Differ(p.decls, Except(p, run[..k]),
                     Execute(p, load, run[..k], a), ExecuteRest(p, load, values, run[..k], start))
    {
      PrefixInOrder(p, run, k);
      RunSettles(p, load, compile, values, run[..k], a, b, start);
      SettledDiffers(p, run[..k], p.Computed(compile, b), b,
                     Execute(p, load, run[..k], a), ExecuteRest(p, load, values, run[..k], start));
    }
  }

  lemma SettledDiffers(p: Program, run: Schedule, computed: Store, b: Store, a: Store, c: Store)
    requires Fits(p, run) && Settled(p, run, computed, b, a, c)
    ensures Differ(p.decls, Except(p, run), a, c)
    ensures forall name :: name in FilledIn(p, run) && name in p.Filled() ==>
              Read(p.decls, a, Block(name)) == Read(p.decls, computed, Block(name))
  {
  }

  // In particular each constant has, once its stream has run, the value the
  // compiler computed for it.
  lemma CompileTimeAgrees(
      p: Program, load: Semantics, compile: Semantics, run: Schedule, a: Store, b: Store, name: string)
    requires Fits(p, run) && WellWritten(p) && SamePure(p.pure, load, compile)
    requires Agree(p.decls, {}, a, b) && forall key: Key :: key.Kept? ==> Read(p.decls, a, key) == Read(p.decls, b, key)
    requires InOrder(p, run) && name in FilledIn(p, run)
    ensures Read(p.decls, Execute(p, load, run, a), Block(name)) == Read(p.decls, p.Computed(compile, b), Block(name))
  {
    var start := Preset(p, compile, a, b);
    RunSettles(p, load, compile, map[], run, a, b, start);
    FilledInIsFilled(p, run);
    SettledDiffers(p, run, p.Computed(compile, b), b, Execute(p, load, run, a),
                   ExecuteRest(p, load, map[], run, start));
  }

  lemma {:induction false} FilledInIsFilled(p: Program, run: Schedule)
    requires Fits(p, run)
    ensures FilledIn(p, run) <= p.Filled()
  {
    if run != [] {
      var n := |run| - 1;
      FilledInIsFilled(p, run[..n]);
      if p.Collects(run[n]) {
        DestinationIsFilled(p, run[n]);
      }
    }
  }

  // A store that holds what another holds for the keys, and nothing else.
  ghost function Copied(decls: Decls, keys: set<Key>, st: Store): (copy: Store)
    ensures copy.Keys == keys && forall key :: key in keys ==> copy[key] == Read(decls, st, key)
  {
    if keys == {} then map[]
    else
      var key :| key in keys;
      Copied(decls, keys - {key}, st)[key := Read(decls, st, key)]
  }

  // A store for the transformed program: the original's, constants preset.
  lemma Preset(p: Program, compile: Semantics, a: Store, b: Store) returns (start: Store)
    requires Agree(p.decls, {}, a, b)
    requires forall key: Key :: key.Kept? ==> Read(p.decls, a, key) == Read(p.decls, b, key)
    ensures Starts(p, compile, a, b, start)
    ensures FoldsComputed(p, compile, b, map[])
  {
    var computed, filled := p.Computed(compile, b), set name | name in p.Filled() :: Block(name);
    start := a + Copied(p.decls, filled, computed);
    hide Program.Computed, FilledBy, Agree, Collectable, Copied;
    forall key
      ensures Read(p.decls, start, key)
           == Read(p.decls, if key.Block? && key.name in p.Filled() then computed else a, key)
    {
      assert key in filled <==> key.Block? && key.name in p.Filled();
    }
  }

  // --------------------------------------------------------- a domain's runs

  // A domain collects its top-level streams first, but runs onLoad first: once,
  // before its ticks.
  function Range(from: nat, to: nat): (r: Schedule)
    requires from <= to
    ensures |r| == to - from && forall k :: 0 <= k < |r| ==> r[k] == from + k
  {
    seq(to - from, k requires 0 <= k => from + k)
  }

  function DomainRun(top: nat, all: nat, ticks: nat): (run: Schedule)
    requires top <= all
    ensures |run| == all - top + ticks * top
    ensures forall k :: 0 <= k < |run| ==> run[k] < all
  {
    if ticks == 0 then Range(top, all)
    else
      assert ticks * top == (ticks - 1) * top + top;
      DomainRun(top, all, ticks - 1) + Range(0, top)
  }

  // A constant is pending exactly while its stream has not run.
  lemma PendingExactly(p: Program, run: Schedule, name: string)
    requires Fits(p, run)
    ensures name in Pending(p, run) <==>
            exists i: nat :: i < |p.streams| && Fills(p, i, name) && i !in run
  {
    if name in p.Filled() {
      var i := FilledAt(p.decls, p.pure, p.streams, name);
      assert Fills(p, i, name);
      FilledInExactly(p, run, i);
      forall j: nat | j < |p.streams| && Fills(p, j, name)
        ensures j == i
      {
        OneFill(p, i, j, name);
      }
    }
    forall j: nat | j < |p.streams| && Fills(p, j, name)
      ensures name in p.Filled()
    {
      DestinationIsFilled(p, j);
    }
  }

  predicate Fills(p: Program, i: nat, name: string)
    requires i < |p.streams|
  {
    p.Collects(i) && Destination(p.streams[i]).name == name
  }

  // A stream is collected if and only if it ends in an unfilled constant that no
  // stream collected before it fills, shows nothing else than given constants
  // and constants such streams fill, and calls pure functions only.
  lemma CollectsExactly(p: Program, i: nat)
    requires i < |p.streams|
    ensures p.Collects(i) <==>
            var n := p.streams[i];
            && n.Stream? && Destination(n).Name? && Unfilled(p.decls, Destination(n).name)
            && !FilledEarlier(p, i, Destination(n).name)
            && (forall name :: name in Shown(n, true) && IsBlock(p.decls, Block(name)) ==> GivenEarlier(p, i, name))
            && (forall name :: name in Called(n) ==> p.pure(name))
  {
    var n, filled := p.streams[i], FilledBy(p.decls, p.pure, p.streams[..i]);
    ShowsOnlyKnown(p.decls, n, filled, true);
    CallsOnlyPureExactly(n, p.pure);
    hide RuntimeRead, CallsOnlyPure, Shown, Called, FilledBy;
    forall name
      ensures name in filled <==> FilledEarlier(p, i, name)
    {
      FilledByEarlier(p, i, name);
    }
    forall name | IsBlock(p.decls, Block(name))
      ensures Known(p.decls, Block(name), filled) <==> GivenEarlier(p, i, name)
    {
    }
  }

  ghost predicate FilledEarlier(p: Program, i: nat, name: string)
    requires i <= |p.streams|
  {
    exists j: nat :: j < i && Fills(p, j, name)
  }

  // A constant with a declared value, or filled by an earlier stream.
  ghost predicate GivenEarlier(p: Program, i: nat, name: string)
    requires i <= |p.streams|
  {
    && name in p.decls && p.decls[name].Constant?
    && (p.decls[name].given.Some? || FilledEarlier(p, i, name))
  }

  lemma FilledByEarlier(p: Program, i: nat, name: string)
    requires i <= |p.streams|
    ensures name in FilledBy(p.decls, p.pure, p.streams[..i]) <==> FilledEarlier(p, i, name)
  {
    var before := p.(streams := p.streams[..i]);
    forall j: nat | j < i
      ensures before.Collects(j) <==> p.Collects(j)
    {
      assert before.streams[..j] == p.streams[..j];
    }
    if name in before.Filled() {
      var j := FilledAt(p.decls, p.pure, before.streams, name);
      assert before.Collects(j) && Fills(p, j, name);
    }
    if FilledEarlier(p, i, name) {
      var j: nat :| j < i && Fills(p, j, name);
      DestinationIsFilled(before, j);
    }
  }

  lemma OneFill(p: Program, i: nat, j: nat, name: string)
    requires i < |p.streams| && j < |p.streams| && Fills(p, i, name) && Fills(p, j, name)
    ensures i == j
  {
    if i < j {
      LaterFillsOther(p, i, j);
    } else if j < i {
      LaterFillsOther(p, j, i);
    }
  }

  lemma LaterFillsOther(p: Program, i: nat, j: nat)
    requires i < j < |p.streams| && p.Collects(i) && p.Collects(j)
    ensures Destination(p.streams[i]).name != Destination(p.streams[j]).name
  {
    var before := p.(streams := p.streams[..j]);
    assert before.streams[..i] == p.streams[..i];
    DestinationIsFilled(before, i);
  }

  lemma {:induction false} FilledInExactly(p: Program, run: Schedule, i: nat)
    requires Fits(p, run) && i < |p.streams| && p.Collects(i)
    ensures Destination(p.streams[i]).name in FilledIn(p, run) <==> i in run
  {
    var name := Destination(p.streams[i]).name;
    if run != [] {
      var n := |run| - 1;
      FilledInExactly(p, run[..n], i);
      assert run == run[..n] + [run[n]];
      if Fills(p, run[n], name) {
        OneFill(p, i, run[n], name);
      }
    }
  }

  // What a maintainer can read off the declarations: collected streams are
  // contained; no onLoad stream uses a constant filled at top level or later in
  // onLoad, and no top-level stream one filled later at top level; and, when
  // there are several ticks, no collected top-level stream remembers.
  ghost predicate DomainInOrder(p: Program, top: nat, ticks: nat)
    requires top <= |p.streams|
  {
    && AllContained(p)
    && (forall j: nat :: j < |p.streams| ==> InOrderAt(p, top, j))
    && (ticks >= 2 ==> forall j: nat :: j < top ==> RunsAgain(p, j))
  }

  ghost predicate InOrderAt(p: Program, top: nat, j: nat)
    requires top <= |p.streams| && j < |p.streams|
  {
    forall i: nat :: i < |p.streams| && p.Collects(i) && NotBefore(top, i, j) ==>
      Block(Destination(p.streams[i]).name) !in Used(p, j)
  }

  ghost predicate RunsAgain(p: Program, j: nat)
    requires j < |p.streams|
  {
    p.Collects(j) ==> !Remembers(p.streams[j])
  }

  // Stream i does not run before stream j in the first tick.
  predicate NotBefore(top: nat, i: nat, j: nat) {
    if j < top then j <= i < top else i < top || j <= i
  }

  lemma FirstTick(top: nat, all: nat)
    requires top <= all
    ensures DomainRun(top, all, 1) == Range(top, all) + Range(0, top)
  {
    assert DomainRun(top, all, 0) == Range(top, all);
  }

  lemma RunBefore(top: nat, all: nat, run: Schedule, k: nat, i: nat)
    requires top <= all && run == Range(top, all) + Range(0, top) && k < all && i < all
    ensures var j := run[k];
            i in run[..k] <==> !NotBefore(top, i, j)
  {
    var at := if i < top then all - top + i else i - top;
    assert run[at] == i;
    if at < k {
      assert run[..k][at] == i;
    }
  }

  lemma OnTimeExactly(p: Program, run: Schedule, k: nat)
    requires Fits(p, run) && k < |run|
    ensures OnTime(p, run, k) <==>
            && (forall i: nat :: i < |p.streams| && p.Collects(i) && i !in run[..k] ==>
                  Block(Destination(p.streams[i]).name) !in Used(p, run[k]))
            && (run[k] in run[..k] ==> RunsAgain(p, run[k]))
  {
    forall name
      ensures name in Pending(p, run[..k]) <==>
              exists i: nat :: i < |p.streams| && Fills(p, i, name) && i !in run[..k]
    {
      PendingExactly(p, run[..k], name);
    }
    hide Pending, Collectable, FilledBy, Used, Remembers;
    if OnTime(p, run, k) {
      forall i: nat | i < |p.streams| && p.Collects(i) && i !in run[..k]
        ensures Block(Destination(p.streams[i]).name) !in Used(p, run[k])
      {
        assert Fills(p, i, Destination(p.streams[i]).name);
      }
    }
  }

  lemma OnTimeInOrder(p: Program, top: nat, k: nat)
    requires top <= |p.streams| && k < |DomainRun(top, |p.streams|, 1)|
    ensures var run := DomainRun(top, |p.streams|, 1);
            OnTime(p, run, k) <==> InOrderAt(p, top, run[k])
  {
    var all := |p.streams|;
    var run := DomainRun(top, all, 1);
    FirstTick(top, all);
    forall i: nat | i < all
      ensures i in run[..k] <==> !NotBefore(top, i, run[k])
    {
      RunBefore(top, all, run, k, i);
    }
    OnTimeExactly(p, run, k);
  }

  lemma FirstTickInOrder(p: Program, top: nat)
    requires top <= |p.streams|
    ensures InOrder(p, DomainRun(top, |p.streams|, 1)) <==> DomainInOrder(p, top, 1)
  {
    hide OnTime, InOrderAt, AllContained;
    var all := |p.streams|;
    var run := DomainRun(top, all, 1);
    if DomainInOrder(p, top, 1) {
      forall k | 0 <= k < |run|
        ensures OnTime(p, run, k)
      {
        OnTimeInOrder(p, top, k);
      }
    }
    if InOrder(p, run) {
      forall j: nat | j < all
        ensures InOrderAt(p, top, j)
      {
        var k := if j < top then all - top + j else j - top;
        FirstTick(top, all);
        OnTimeInOrder(p, top, k);
      }
    }
  }

  lemma {:induction false} EveryStreamRuns(top: nat, all: nat, ticks: nat)
    requires top <= all && ticks >= 1
    ensures forall i: nat :: i < all ==> i in DomainRun(top, all, ticks)
  {
    if ticks == 1 {
      FirstTick(top, all);
      forall i: nat | i < all
        ensures i in DomainRun(top, all, 1)
      {
        assert DomainRun(top, all, 1)[if i < top then all - top + i else i - top] == i;
      }
    } else {
      EveryStreamRuns(top, all, ticks - 1);
    }
  }

  // A tick after all streams have run asks only that fills run again.
  lemma OneMoreTick(p: Program, before: Schedule, top: nat)
    requires Fits(p, before) && top <= |p.streams| && forall i: nat :: i < |p.streams| ==> i in before
    ensures Fits(p, before + Range(0, top))
    ensures InOrder(p, before + Range(0, top)) <==>
            InOrder(p, before) && forall j: nat :: j < top ==> RunsAgain(p, j)
  {
    hide OnTime, AllContained, RunsAgain;
    var run := before + Range(0, top);
    assert run[..|before|] == before;
    if InOrder(p, run) {
      PrefixInOrder(p, run, |before|);
      forall j: nat | j < top
        ensures RunsAgain(p, j)
      {
        OnTimeAgain(p, before, top, j);
      }
    }
    if InOrder(p, before) && forall j: nat :: j < top ==> RunsAgain(p, j) {
      forall k | 0 <= k < |run|
        ensures OnTime(p, run, k)
      {
        if k < |before| {
          assert OnTime(p, before, k) && before[..k] == run[..k];
          OnTimeExactly(p, run, k);
          OnTimeExactly(p, before, k);
        } else {
          OnTimeAgain(p, before, top, k - |before|);
        }
      }
    }
  }

  lemma OnTimeAgain(p: Program, before: Schedule, top: nat, j: nat)
    requires Fits(p, before) && j < top <= |p.streams| && forall i: nat :: i < |p.streams| ==> i in before
    requires Fits(p, before + Range(0, top))
    ensures OnTime(p, before + Range(0, top), |before| + j) <==> RunsAgain(p, j)
  {
    var run, k := before + Range(0, top), |before| + j;
    assert run[k] == j;
    forall i: nat | i < |p.streams|
      ensures i in run[..k]
    {
      assert i in before;
      var at: nat :| at < |before| && before[at] == i;
      assert run[..k][at] == i;
    }
    OnTimeExactly(p, run, k);
  }

  // The condition is exact for any number of ticks, after which no constant
  // is pending.
  lemma {:induction false} DomainInOrderExactly(p: Program, top: nat, ticks: nat)
    requires top <= |p.streams| && ticks >= 1
    ensures var run := DomainRun(top, |p.streams|, ticks);
            && (InOrder(p, run) <==> DomainInOrder(p, top, ticks))
            && Pending(p, run) == {}
  {
    var all := |p.streams|;
    EveryStreamRuns(top, all, ticks);
    forall name
      ensures name !in Pending(p, DomainRun(top, all, ticks))
    {
      PendingExactly(p, DomainRun(top, all, ticks), name);
    }
    hide InOrder, InOrderAt, AllContained, RunsAgain, Pending;
    if ticks == 1 {
      FirstTickInOrder(p, top);
    } else {
      DomainInOrderExactly(p, top, ticks - 1);
      EveryStreamRuns(top, all, ticks - 1);
      OneMoreTick(p, DomainRun(top, all, ticks - 1), top);
    }
  }

  ghost function RemovedState(p: Program): iset<Key> {
    iset key | Removed(p, key)
  }

  // So a domain in order computes the same, on every block, after any number
  // of ticks.
  lemma DomainAgrees(
      p: Program, load: Semantics, compile: Semantics, values: map<string, Value>, top: nat, ticks: nat,
      a: Store, b: Store, start: Store)
    requires top <= |p.streams| && ticks >= 1 && WellWritten(p) && SamePure(p.pure, load, compile)
    requires Starts(p, compile, a, b, start) && FoldsComputed(p, compile, b, values)
    requires DomainInOrder(p, top, ticks)
    ensures var run := DomainRun(top, |p.streams|, ticks);
            Differ(p.decls, RemovedState(p), Execute(p, load, run, a), ExecuteRest(p, load, values, run, start))
  {
    var run := DomainRun(top, |p.streams|, ticks);
    DomainInOrderExactly(p, top, ticks);
    hide DomainInOrder, InOrder, DomainRun, Pending, Settled, Execute, ExecuteRest, WellWritten, Starts;
    RunSettles(p, load, compile, values, run, a, b, start);
    SettledDiffers(p, run, p.Computed(compile, b), b, Execute(p, load, run, a),
                   ExecuteRest(p, load, values, run, start));
  }
}
