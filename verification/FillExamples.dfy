// Small programs for which filling constants at compile time is right, and
// small programs for which it is not.
module FillExamples {
  import opened ConstantFills
  import opened FilledPrograms
  import opened Wrappers

  function Plain(name: string, properties: seq<Node>): Node {
    Function(name, properties, [], [], [])
  }

  lemma FirstIsNot(p: Program, first: Node, second: Node)
    requires p.streams == [first, second] && !Collectable(p.decls, p.pure, first, {})
    ensures !p.Collects(0) && (p.Collects(1) <==> Collectable(p.decls, p.pure, second, {}))
    ensures p.Filled() == if p.Collects(1) then {Destination(second).name} else {}
  {
    assert p.streams[..0] == [] && p.streams[..1] == [first] && [first][..0] == [];
    hide Collectable;
    assert FilledBy(p.decls, p.pure, [first]) == {};
  }

  // ------------------------------------------------------ a table in onLoad

  // A table filled in onLoad and read at top level is in order, for any
  // number of ticks.
  lemma LoadedTableIsInOrder(pure: string -> bool, ticks: nat)
    requires pure("Fill")
    ensures var read := Stream(Indexed("Table", Literal(4)), Name("Out"));
            var fill := Stream(Plain("Fill", []), Name("Table"));
            var p := Program(map["Table" := Constant(None), "Out" := Runtime], pure, [read, fill]);
            p.Filled() == {"Table"} && DomainInOrder(p, 1, ticks)
  {
    var read := Stream(Indexed("Table", Literal(4)), Name("Out"));
    var fill := Stream(Plain("Fill", []), Name("Table"));
    var p := Program(map["Table" := Constant(None), "Out" := Runtime], pure, [read, fill]);
    FirstIsNot(p, read, fill);
    assert Collectable(p.decls, pure, fill, {});
    assert p.Collects(1);
    assert Shown(fill, true) == {} && Captured(fill) == {} && WrittenBy(fill) == {Block("Table")};
    assert Contained(p, 1);
  }

  // --------------------------------------------- onLoad reads a top-level fill

  // An onLoad fill that reads a constant filled at top level runs before it,
  // but is collected after it: the compiler sees 5, the program 0.
  lemma LoadReadsTooEarly(pure: string -> bool, sem: Semantics)
    ensures var top, load := Stream(Literal(5), Name("T")), Stream(Name("T"), Name("U"));
            var p := Program(map["T" := Constant(None), "U" := Constant(None)], pure, [top, load]);
            var a: Store := map[Block("T") := [0], Block("U") := [0]];
            && p.Collects(0) && p.Collects(1) && !DomainInOrder(p, 1, 1)
            && Read(p.decls, p.Computed(sem, a), Block("U")) == [5]
            && Read(p.decls, Execute(p, sem, DomainRun(1, 2, 1), a), Block("U")) == [0]
  {
    hide DomainInOrder, Program.Collects, Program.Computed, Execute;
    var top, load := Stream(Literal(5), Name("T")), Stream(Name("T"), Name("U"));
    var p := Program(map["T" := Constant(None), "U" := Constant(None)], pure, [top, load]);
    var a: Store := map[Block("T") := [0], Block("U") := [0]];
    BothCollected(p, top, load);
    LoadIsEarly(p, load);
    TwoComputed(p, sem, a);
    FirstTick(1, 2);
    assert DomainRun(1, 2, 1) == [1, 0];
    TwoRun(p, sem, 1, 0, a);
  }

  lemma TwoRun(p: Program, sem: Semantics, first: nat, second: nat, st: Store)
    requires first < |p.streams| && second < |p.streams|
    ensures Execute(p, sem, [first, second], st)
         == RunStream(p.decls, sem, p.streams[second], RunStream(p.decls, sem, p.streams[first], st))
  {
    hide RunStream;
    assert [first, second][..1] == [first] && [first][..0] == [];
    assert Execute(p, sem, [first], st) == RunStream(p.decls, sem, p.streams[first], st);
  }

  lemma LoadIsEarly(p: Program, load: Node)
    requires |p.streams| == 2 && p.streams[1] == load == Stream(Name("T"), Name("U"))
    requires p.Collects(0) && p.Collects(1) && Destination(p.streams[0]) == Name("T")
    ensures !DomainInOrder(p, 1, 1)
  {
    assert "T" in Shown(load, true) && Block("T") in Used(p, 1) && NotBefore(1, 0, 1);
    assert !InOrderAt(p, 1, 1);
  }

  lemma BothCollected(p: Program, top: Node, load: Node)
    requires p.decls == map["T" := Constant(None), "U" := Constant(None)] && p.streams == [top, load]
    requires top == Stream(Literal(5), Name("T")) && load == Stream(Name("T"), Name("U"))
    ensures p.Collects(0) && p.Collects(1)
  {
    assert p.streams[..0] == [] && p.streams[..1] == [top] && [top][..0] == [];
    assert Collectable(p.decls, p.pure, top, {});
    assert FilledBy(p.decls, p.pure, [top]) == {"T"};
    assert Collectable(p.decls, p.pure, load, {"T"});
  }

  lemma TwoComputed(p: Program, sem: Semantics, st: Store)
    requires |p.streams| == 2 && p.Collects(0) && p.Collects(1)
    ensures p.Computed(sem, st)
         == RunStream(p.decls, sem, p.streams[1], RunStream(p.decls, sem, p.streams[0], st))
  {
    hide RunStream;
    var first := p.(streams := p.streams[..1]);
    assert first.streams[..0] == p.streams[..0] == [];
    CollectLast(p, sem, st);
    CollectLast(first, sem, st);
  }

  // --------------------------------------------------- a read inside a call

  lemma ReadOne(decls: Decls, st: Store, key: Key)
    ensures ReadEach(decls, st, [key]) == [Read(decls, st, key)]
  {
    assert [key][1..] == [];
  }

  // A call without properties that feeds a block.
  lemma CallFills(decls: Decls, sem: Semantics, call: Node, captured: seq<Value>, to: string, st: Store)
    requires call.Function? && call.properties == [] && call.outs == []
    requires captured == ReadEach(decls, st, call.captures) && IsBlock(decls, Block(to))
    ensures Read(decls, RunStream(decls, sem, Stream(call, Name(to)), st), Block(to)) == sem(call.name, captured, None)
  {
    assert [] + captured == captured;
    assert EvalAll(decls, sem, call.properties, st) == ([], st);
    var (v, st') := Eval(decls, sem, call, st);
    assert v == sem(call.name, captured, None);
    assert RunStream(decls, sem, Stream(call, Name(to)), st) == Feed(decls, sem, Name(to), v, st').1;
  }

  // HostFill() >> Base; SumBase() >> Total, where the body of SumBase reads
  // Base: the first stream stays, the second is collected, and the compiler
  // sums a base that is not filled.
  ghost predicate Summing(p: Program) {
    && p.decls == map["Base" := Constant(None), "Total" := Constant(None)]
    && p.streams == [Stream(Plain("HostFill", []), Name("Base")),
                     Stream(Function("SumBase", [], [], [Block("Base")], []), Name("Total"))]
    && p.pure("SumBase") && !p.pure("HostFill")
  }

  function Sums(): Semantics {
    (name, args: seq<Value>, key) => if name == "HostFill" then [7] else if args == [] then [] else args[0]
  }

  lemma SumBaseReadsAhead(p: Program, a: Store)
    requires Summing(p) && Read(p.decls, a, Block("Base")) == [0]
    ensures WellWritten(p) && !p.Collects(0) && p.Collects(1) && !DomainInOrder(p, 2, 1)
    ensures Read(p.decls, p.Computed(Sums(), a), Block("Total")) == [0]
    ensures Read(p.decls, Execute(p, Sums(), DomainRun(2, 2, 1), a), Block("Total")) == [7]
  {
    hide DomainInOrder, Program.Collects, Program.Computed, Execute, RunStream, Read, Sums, WellWritten;
    var fill, sum := p.streams[0], p.streams[1];
    SumIsCollected(p);
    SumIsWellWritten(p);
    NothingCollected(p, Sums(), a);
    CollectLast(p, Sums(), a);
    SumRuns(p, a);
    SumRuns(p, RunStream(p.decls, Sums(), fill, a));
    FirstTick(2, 2);
    assert DomainRun(2, 2, 1) == [0, 1];
    TwoRun(p, Sums(), 0, 1, a);
  }

  lemma SumIsWellWritten(p: Program)
    requires Summing(p)
    ensures WellWritten(p)
  {
    assert WrittenBy(p.streams[0]) == {Block("Base")} && Captured(p.streams[0]) == {};
    assert WrittenBy(p.streams[1]) == {Block("Total")} && Captured(p.streams[1]) == {Block("Base")};
  }

  lemma SumIsCollected(p: Program)
    requires Summing(p)
    ensures !p.Collects(0) && p.Collects(1) && !DomainInOrder(p, 2, 1)
  {
    var fill, sum := p.streams[0], p.streams[1];
    FirstIsNot(p, fill, sum);
    assert FilledBy(p.decls, p.pure, p.streams[..1]) == {} by {
      assert p.streams[..1] == [fill] && [fill][..0] == [];
    }
    assert Block("Base") in Captured(sum) && ReadsAhead(p, 1, Block("Base"));
    assert !Contained(p, 1);
  }

  lemma NothingCollected(p: Program, sem: Semantics, a: Store)
    requires |p.streams| == 2 && !p.Collects(0)
    ensures p.(streams := p.streams[..1]).Computed(sem, a) == a
  {
    hide Collectable;
    var first := p.(streams := p.streams[..1]);
    assert first.streams[..0] == p.streams[..0] == [];
    CollectLast(first, sem, a);
  }

  lemma SumRuns(p: Program, st: Store)
    requires Summing(p)
    ensures Read(p.decls, RunStream(p.decls, Sums(), p.streams[1], st), Block("Total"))
         == Read(p.decls, st, Block("Base"))
    ensures Read(p.decls, RunStream(p.decls, Sums(), p.streams[0], st), Block("Base")) == [7]
  {
    ReadOne(p.decls, st, Block("Base"));
    CallFills(p.decls, Sums(), p.streams[0].left, [], "Base", st);
    CallFills(p.decls, Sums(), p.streams[1].left, [Read(p.decls, st, Block("Base"))], "Total", st);
  }

  // ------------------------------------------------------- a call with state

  // 1 >> Accumulate() >> T at top level, with a module that adds to what it
  // keeps: collected once, it stays 1; in the program it grows with every tick.
  ghost predicate Growing(p: Program) {
    var kept := Kept("Accumulate");
    && p.decls == map["T" := Constant(None)]
    && p.streams == [Stream(Literal(1), Stream(Function("Accumulate", [], [], [kept], [kept]), Name("T")))]
    && p.pure("Accumulate")
  }

  function Adds(): Semantics {
    (name, args: seq<Value>, key) =>
      if |args| == 2 && |args[0]| == 1 then [args[0][0] + if |args[1]| == 1 then args[1][0] else 0] else []
  }

  lemma AccumulateRunsAgain(p: Program)
    requires Growing(p)
    ensures WellWritten(p) && p.Collects(0) && DomainInOrder(p, 1, 1) && !DomainInOrder(p, 1, 2)
    ensures Read(p.decls, p.Computed(Adds(), map[]), Block("T")) == [1]
    ensures Read(p.decls, Execute(p, Adds(), DomainRun(1, 1, 1), map[]), Block("T")) == [1]
    ensures Read(p.decls, Execute(p, Adds(), DomainRun(1, 1, 2), map[]), Block("T")) == [2]
  {
    hide DomainInOrder, Program.Collects, Program.Computed, Execute, RunStream, Adds;
    GrowIsCollected(p);
    GrowInOrder(p);
    GrowRuns(p, map[], 0);
    GrowRuns(p, RunStream(p.decls, Adds(), p.streams[0], map[]), 1);
    OneComputed(p, Adds(), map[]);
    FirstTick(1, 1);
    assert DomainRun(1, 1, 1) == [0] && [0][..0] == [];
    assert DomainRun(1, 1, 2) == DomainRun(1, 1, 1) + Range(0, 1) == [0, 0];
    TwoRun(p, Adds(), 0, 0, map[]);
  }

  lemma OneComputed(p: Program, sem: Semantics, st: Store)
    requires |p.streams| == 1 && p.Collects(0)
    ensures p.Computed(sem, st) == RunStream(p.decls, sem, p.streams[0], st) == Execute(p, sem, [0], st)
  {
    hide Collectable, RunStream;
    assert p.streams[..0] == [] && [0][..0] == [];
    CollectLast(p, sem, st);
  }

  lemma GrowIsCollected(p: Program)
    requires Growing(p)
    ensures p.Collects(0)
  {
    var grow := p.streams[0];
    assert p.streams[..0] == [];
    assert RuntimeRead(p.decls, grow.right.left, {}, false).None? && RuntimeRead(p.decls, grow.right, {}, true).None?;
    assert CallsOnlyPure(grow.right.left, p.pure) && CallsOnlyPure(grow.right, p.pure);
  }

  lemma GrowInOrder(p: Program)
    requires Growing(p) && p.Collects(0)
    ensures DomainInOrder(p, 1, 1) && !DomainInOrder(p, 1, 2)
  {
    var grow, kept := p.streams[0], Kept("Accumulate");
    assert Captured(grow.right.left) == {kept} == Captured(grow.right) == Captured(grow);
    assert Shown(grow.right, true) == {} == Shown(grow, true);
    assert Writes(grow.right.left) == {kept} && FeedWrites(grow.right) == {kept, Block("T")};
    assert WrittenBy(grow) == {kept, Block("T")};
    hide Captured, Shown, Writes, FeedWrites, WrittenBy;
    assert Contained(p, 0) && Remembers(grow) && !RunsAgain(p, 0);
    assert Block("T") !in Used(p, 0);
  }

  lemma GrowRuns(p: Program, st: Store, n: int)
    requires Growing(p) && Read(p.decls, st, Kept("Accumulate")) == (if n == 0 then [] else [n])
    ensures var after := RunStream(p.decls, Adds(), p.streams[0], st);
            Read(p.decls, after, Kept("Accumulate")) == [n + 1] == Read(p.decls, after, Block("T"))
  {
    var decls, sem, grow, kept := p.decls, Adds(), p.streams[0], Kept("Accumulate");
    ReadOne(decls, st, kept);
    var all := [[1]] + [] + [Read(decls, st, kept)];
    assert all == [[1], Read(decls, st, kept)];
    assert CallWrites([], [kept]) == [kept] && EvalAll(decls, sem, [], st) == ([], st);
    var (v, st') := Feed(decls, sem, grow.right.left, [1], st);
    assert (v, st') == Call(decls, sem, "Accumulate", [[1]] + [], [kept], [kept], st);
    assert v == sem("Accumulate", all, None) == [n + 1];
    assert Read(decls, st', kept) == sem("Accumulate", all, Some(kept)) == [n + 1];
    assert Eval(decls, sem, grow.left, st) == ([1], st);
    assert RunStream(decls, sem, grow, st) == Feed(decls, sem, grow.right, [1], st).1;
  }
}
