// The emitted graph refines the reference step: for every machine, in every
// world, it reaches its end block and leaves the world the step describes.
module MachineGraph {
  import opened Arith
  import opened Machines
  import opened MachineStep
  import opened MachineCode
  import opened Wrappers

  // ------------------------------------------------------ straight-line code

  lemma {:induction false} ExecAppend(a: seq<Instr>, b: seq<Instr>, c: Config)
    ensures ExecBody(a + b, c) == ExecBody(b, ExecBody(a, c))
  {
    if a == [] {
      assert a + b == b;
    } else {
      assert (a + b)[1..] == a[1..] + b;
      ExecAppend(a[1..], b, ExecInstr(a[0], c));
    }
  }

  function WithVars(c: Config, v: Vars): Config {
    c.(world := c.world.(vars := v))
  }

  function WithHistory(c: Config, h: map<string, int>): Config {
    c.(world := c.world.(history := h))
  }

  lemma {:induction false} ExecCalls(codes: seq<Code>, c: Config)
    ensures ExecBody(Calls(codes), c) == WithVars(c, RunAll(codes, c.world.vars))
  {
    if codes != [] {
      assert Calls(codes)[1..] == Calls(codes[1..]);
      ExecCalls(codes[1..], ExecInstr(Call(codes[0]), c));
    }
  }

  ghost function StoreNames(states: seq<FlatState>, id: int): set<string> {
    match StateOf(states, id)
    case None => {}
    case Some(s) => if s.decl.resumeLastState then {s.decl.name} else {}
  }

  lemma OneStore(states: seq<FlatState>, id: int, active: int, c: Config)
    ensures ExecBody(HistoryStores(states, id, active), c)
         == WithHistory(c, c.world.history + Recorded(StoreNames(states, id), active))
  {
    var stores, names := HistoryStores(states, id, active), StoreNames(states, id);
    if stores != [] {
      assert stores[1..] == [];
      assert Recorded(names, active) == map[stores[0].name := active];
      assert c.world.history[stores[0].name := active] == c.world.history + Recorded(names, active);
    } else {
      assert c.world.history + Recorded(names, active) == c.world.history;
    }
  }

  // The stores made for one exited state are its share of the history.
  lemma ExecHistoryStores(states: seq<FlatState>, e: FlatState, active: int, c: Config)
    requires IsFlat(states) && e in states
    ensures ExecBody(HistoryStores(states, e.parentId, active) + HistoryStores(states, e.id, active), c)
         == WithHistory(c, HistoryAfterExit(states, [e], active, c.world.history))
  {
    var parent, own := HistoryStores(states, e.parentId, active), HistoryStores(states, e.id, active);
    ExecAppend(parent, own, c);
    OneStore(states, e.parentId, active, c);
    OneStore(states, e.id, active, ExecBody(parent, c));
    TouchedByOne(states, e);
    RecordedTwice(StoreNames(states, e.parentId), StoreNames(states, e.id), active, c.world.history);
  }

  lemma RecordedTwice(a: set<string>, b: set<string>, active: int, history: map<string, int>)
    ensures history + Recorded(a, active) + Recorded(b, active) == history + Recorded(a + b, active)
  {
  }

  lemma TouchedByOne(states: seq<FlatState>, e: FlatState)
    requires IsFlat(states) && e in states
    ensures TouchedNames(states, [e]) == StoreNames(states, e.parentId) + StoreNames(states, e.id)
  {
    forall s | s in states
      ensures Touched([e], s) <==>
              (s.decl.resumeLastState && (StateOf(states, e.id) == Some(s) || StateOf(states, e.parentId) == Some(s)))
    {
      assert e in [e];
      var i :| 0 <= i < |states| && states[i] == s;
    }
    StoredIsState(states, e.id);
    StoredIsState(states, e.parentId);
  }

  lemma StoredIsState(states: seq<FlatState>, id: int)
    ensures forall name :: name in StoreNames(states, id) ==>
              StateOf(states, id).Some? && StateOf(states, id).value in states
              && StateOf(states, id).value.decl.name == name && StateOf(states, id).value.decl.resumeLastState
  {
  }

  lemma HistoryOfMore(
      states: seq<FlatState>, first: FlatState, rest: seq<FlatState>, active: int, history: map<string, int>)
    ensures HistoryAfterExit(states, rest, active, HistoryAfterExit(states, [first], active, history))
         == HistoryAfterExit(states, [first] + rest, active, history)
  {
    forall s | s in states
      ensures Touched([first] + rest, s) <==> Touched([first], s) || Touched(rest, s)
    {
    }
    assert TouchedNames(states, [first] + rest) == TouchedNames(states, [first]) + TouchedNames(states, rest);
    RecordedTwice(TouchedNames(states, [first]), TouchedNames(states, rest), active, history);
  }

  lemma {:induction false} ExecExits(states: seq<FlatState>, exited: seq<FlatState>, active: int, c: Config)
    requires IsFlat(states) && forall e :: e in exited ==> e in states
    ensures ExecBody(ExitAll(states, exited, active), c)
         == WithHistory(WithVars(c, RunAll(Exits(exited), c.world.vars)),
                        HistoryAfterExit(states, exited, active, c.world.history))
  {
    if exited == [] {
      assert TouchedNames(states, []) == {};
      assert HistoryAfterExit(states, [], active, c.world.history) == c.world.history;
    } else {
      var e, rest := exited[0], exited[1..];
      var c1 := ExecBody(ExitOne(states, e, active), c);
      ExecAppend(ExitOne(states, e, active), ExitAll(states, rest, active), c);
      ExecExitOne(states, e, active, c);
      ExecExits(states, rest, active, c1);
      RunAllAppend(e.decl.onExit, Exits(rest), c.world.vars);
      HistoryOfMore(states, e, rest, active, c.world.history);
      assert [e] + rest == exited;
    }
  }

  lemma ExecExitOne(states: seq<FlatState>, e: FlatState, active: int, c: Config)
    requires IsFlat(states) && e in states
    ensures ExecBody(ExitOne(states, e, active), c)
         == WithHistory(WithVars(c, RunAll(e.decl.onExit, c.world.vars)),
                        HistoryAfterExit(states, [e], active, c.world.history))
  {
    var calls, parent, own := Calls(e.decl.onExit), HistoryStores(states, e.parentId, active),
                              HistoryStores(states, e.id, active);
    assert ExitOne(states, e, active) == calls + (parent + own);
    ExecAppend(calls, parent + own, c);
    ExecCalls(e.decl.onExit, c);
    ExecHistoryStores(states, e, active, ExecBody(calls, c));
  }

  lemma ExecActiveStore(m: Machine, target: int, c: Config)
    requires IsFlat(m.states)
    ensures ExecInstr(ActiveStore(m, target), c)
         == c.(world := c.world.(active := Destination(m, target, c.world.history)))
  {
  }

  // The fire block is the reference's firing.
  lemma ExecFire(m: Machine, s: FlatState, a: Applicable, c: Config)
    requires IsFlat(m.states)
    ensures ExecBody(FireBody(m, s, a), c).world == Fire(m, s, a, c.world)
  {
    var exited := ExitedUpTo(Ancestry(m.states, s.id), a.owner.id);
    var entered := TopDown(m, ResolveLeaf(m.states, a.transition.targetId, {}));
    ExitedAreAncestors(Ancestry(m.states, s.id), a.owner.id);
    var exits, onTransition := ExitAll(m.states, exited, s.id), Calls(a.transition.decl.onTransition);
    var stores := [ActiveStore(m, a.transition.targetId), ClearRequest];
    var updates, entries := Calls(Updates(entered)), Calls(Entries(entered));
    var c1 := ExecBody(exits, c);
    var c2 := ExecBody(onTransition, c1);
    var c3 := ExecBody(stores, c2);
    ExecAppend(exits + onTransition + stores + updates, entries, c);
    ExecAppend(exits + onTransition + stores, updates, c);
    ExecAppend(exits + onTransition, stores, c);
    ExecAppend(exits, onTransition, c);
    ExecExits(m.states, exited, s.id, c);
    ExecCalls(a.transition.decl.onTransition, c1);
    RunAllAppend(Exits(exited), a.transition.decl.onTransition, c.world.vars);
    ExecStores(m, a.transition.targetId, c2);
    ExecCalls(Updates(entered), c3);
    ExecCalls(Entries(entered), ExecBody(updates, c3));
    RunAllAppend(Updates(entered), Entries(entered), c3.world.vars);
  }

  lemma ExecStores(m: Machine, target: int, c: Config)
    requires IsFlat(m.states)
    ensures ExecBody([ActiveStore(m, target), ClearRequest], c)
         == WithVars(c.(world := c.world.(active := Destination(m, target, c.world.history))),
                     c.world.vars.(request := 0, requestArg := 0))
  {
    ExecActiveStore(m, target, c);
    var stores := [ActiveStore(m, target), ClearRequest];
    assert stores[1..] == [ClearRequest] && [ClearRequest][1..] == [];
    var c1 := ExecInstr(stores[0], c);
    assert ExecBody(stores, c) == ExecBody([ClearRequest], c1) == ExecBody([], ExecInstr(ClearRequest, c1));
  }

  lemma {:induction false} ExecClears(ts: seq<Transition>, c: Config)
    ensures ExecBody(LatchClears(ts), c)
         == WithVars(c, c.world.vars.(latches := c.world.vars.latches - (set t | t in ts && t.HasLatch() :: t.id)))
  {
    if ts != [] {
      var first := if ts[0].HasLatch() then [ClearLatch(ts[0].id)] else [];
      ExecAppend(first, LatchClears(ts[1..]), c);
      ExecClears(ts[1..], ExecBody(first, c));
      assert first != [] ==> first[1..] == [];
    }
  }

  lemma {:induction false} ExecAllClears(states: seq<FlatState>, c: Config)
    ensures ExecBody(AllLatchClears(states), c)
         == WithVars(c, c.world.vars.(latches := c.world.vars.latches - Latches(states)))
  {
    if states == [] {
      assert Latches(states) == {};
    } else {
      var ts := states[0].transitions;
      ExecAppend(LatchClears(ts), AllLatchClears(states[1..]), c);
      ExecClears(ts, c);
      ExecAllClears(states[1..], ExecBody(LatchClears(ts), c));
      assert Latches(states) == (set t | t in ts && t.HasLatch() :: t.id) + Latches(states[1..]);
    }
  }

  // ------------------------------------------------------------- the layout

  lemma {:induction false} CandidateAt(branches: seq<Branch>, base: nat, k: nat)
    requires k < |branches|
    ensures var blocks, start := CandidateBlocks(branches, base), base + 3 * k;
            && blocks[3 * k] == Block([], IfAll(branches[k].tests, start + 1, start + 2))
            && blocks[3 * k + 1] == Block(branches[k].fire, Jump(END))
            && blocks[3 * k + 2] == Block([], Jump(start + 3))
    decreases |branches|
  {
    var n := |branches| - 1;
    if k < n {
      CandidateAt(branches[..n], base, k);
    }
  }

  lemma {:induction false} PlanAt(plans: seq<Plan>, n: nat, i: nat, j: nat)
    requires i < n <= |plans| && j < 3 * |plans[i].branches| + 2
    ensures FIRST_STATE <= PlanLabel(plans, i) && PlanLabel(plans, i) + j < FIRST_STATE + |LayOut(plans, n)|
    ensures LayOut(plans, n)[PlanLabel(plans, i) - FIRST_STATE + j] == PlanBlocks(plans[i], PlanLabel(plans, i))[j]
    decreases n
  {
    LabelAtLeast(plans, i);
    if i + 1 < n {
      PlanAt(plans, n - 1, i, j);
    }
  }

  lemma {:induction false} LabelAtLeast(plans: seq<Plan>, n: nat)
    requires n <= |plans|
    ensures PlanLabel(plans, n) >= FIRST_STATE
  {
    if n > 0 {
      LabelAtLeast(plans, n - 1);
    }
  }

  lemma {:induction false} CaseOf(plans: seq<Plan>, n: nat, id: int)
    requires n <= |plans| && forall i :: 0 <= i < |plans| ==> plans[i].id == i + FIRST_ID
    ensures id in Cases(plans, n) <==> FIRST_ID <= id < n + FIRST_ID
    ensures id in Cases(plans, n) ==> Cases(plans, n)[id] == PlanLabel(plans, id - FIRST_ID)
  {
    if n > 0 {
      CaseOf(plans, n - 1, id);
    }
  }

  // ------------------------------------------------------------ the chain

  // What the chain of tests does, given the values in the registers.
  function ChainResult(branches: seq<Branch>, process: seq<Instr>, c: Config): Config {
    if branches == [] then ExecBody(process, c)
    else if HoldAll(branches[0].tests, c) then ExecBody(branches[0].fire, c)
    else ChainResult(branches[1..], process, c)
  }

  ghost predicate Placed(blocks: seq<Block>, p: Plan, base: nat) {
    && END < base
    && base + 3 * |p.branches| + 2 <= |blocks|
    && forall j :: 0 <= j < 3 * |p.branches| + 2 ==> blocks[base + j] == PlanBlocks(p, base)[j]
  }

  lemma TestPlaced(blocks: seq<Block>, p: Plan, base: nat, k: nat)
    requires Placed(blocks, p, base) && k < |p.branches|
    ensures var test := base + 1 + 3 * k;
            && blocks[test] == Block([], IfAll(p.branches[k].tests, test + 1, test + 2))
            && blocks[test + 1] == Block(p.branches[k].fire, Jump(END))
            && blocks[test + 2] == Block([], Jump(test + 3))
  {
    CandidateAt(p.branches, base + 1, k);
    assert blocks[base + (1 + 3 * k)] == PlanBlocks(p, base)[1 + 3 * k];
    assert blocks[base + (2 + 3 * k)] == PlanBlocks(p, base)[2 + 3 * k];
    assert blocks[base + (3 + 3 * k)] == PlanBlocks(p, base)[3 + 3 * k];
  }

  lemma ProcessPlaced(blocks: seq<Block>, p: Plan, base: nat)
    requires Placed(blocks, p, base)
    ensures blocks[base + 1 + 3 * |p.branches|] == Block(p.process, Jump(END))
  {
    assert blocks[base + (1 + 3 * |p.branches|)] == PlanBlocks(p, base)[1 + 3 * |p.branches|];
  }

  lemma {:induction false} ExecChain(
      blocks: seq<Block>, clears: seq<Instr>, p: Plan, base: nat, k: nat, c: Config, fuel: nat)
    requires Placed(blocks, p, base) && blocks[END] == Block(clears, Return)
    requires k <= |p.branches| && fuel >= 2 * (|p.branches| - k) + 2
    ensures Exec(blocks, base + 1 + 3 * k, c, fuel)
         == Some(ExecBody(clears, ChainResult(p.branches[k..], p.process, c)).world)
    decreases |p.branches| - k
  {
    var test := base + 1 + 3 * k;
    if k == |p.branches| {
      ProcessPlaced(blocks, p, base);
      ExecEnd(blocks, clears, ExecBody(p.process, c), fuel - 1);
    } else {
      TestPlaced(blocks, p, base, k);
      assert p.branches[k..][1..] == p.branches[k + 1..];
      if HoldAll(p.branches[k].tests, c) {
        assert Exec(blocks, test, c, fuel) == Exec(blocks, test + 1, c, fuel - 1);
        ExecEnd(blocks, clears, ExecBody(p.branches[k].fire, c), fuel - 2);
      } else {
        assert Exec(blocks, test, c, fuel) == Exec(blocks, test + 2, c, fuel - 1);
        assert Exec(blocks, test + 2, c, fuel - 1) == Exec(blocks, test + 3, c, fuel - 2);
        ExecChain(blocks, clears, p, base, k + 1, c, fuel - 2);
      }
    }
  }

  lemma ExecEnd(blocks: seq<Block>, clears: seq<Instr>, c: Config, fuel: nat)
    requires |blocks| > END && blocks[END] == Block(clears, Return) && fuel > 0
    ensures Exec(blocks, END, c, fuel) == Some(ExecBody(clears, c).world)
  {
  }

  lemma {:induction false} HoldAppend(a: seq<Test>, b: seq<Test>, c: Config)
    ensures HoldAll(a + b, c) <==> HoldAll(a, c) && HoldAll(b, c)
  {
    if a == [] {
      assert a + b == b;
    } else {
      assert (a + b)[1..] == a[1..] + b;
      HoldAppend(a[1..], b, c);
    }
  }

  lemma HoldOne(t: Test, c: Config)
    ensures HoldAll([t], c) <==> Holds(t, c)
  {
    assert [t][1..] == [];
  }

  lemma SignOfRemainder(a: int, b: int)
    requires b != 0
    ensures SignedRemainder(a, b) == 0 <==> a % b == 0
  {
    MultipleOf(a, b);
    MultipleOf(-a, b);
  }

  lemma MultipleOf(a: int, b: int)
    requires b != 0
    ensures a % b == 0 ==> (-a) % b == 0
  {
    var d := if b > 0 then b else -b;
    assert a % b == a % d && (-a) % b == (-a) % d;
    if a % d == 0 {
      assert -a == -(a / d) * d;
      DivModUnique(-a, d, -(a / d), 0);
    }
  }

  // The tests emitted for a transition hold when the reference enables it.
  lemma TestsAreEnabled(t: Transition, c: Config)
    ensures HoldAll(TestsOf(t), c) <==> Enabled(t, c.world.vars, c.request, c.arg)
  {
    var d := t.decl;
    var raised := if t.HasLatch() then [LatchOn(t.id)] else if d.triggerOnGuard then [] else [RequestIs(t.id)];
    var steps := if d.rangeStep > 1 || d.rangeStep < -1 then [ArgSteps(d.rangeStart, d.rangeStep)] else [];
    var range := if d.isGenerator then [ArgAtLeast(d.rangeStart), ArgAtMost(d.rangeEnd)] + steps else [];
    var guard := if |d.guard| > 0 then [Guard(d.guard[|d.guard| - 1])] else [];
    assert TestsOf(t) == raised + range + guard;
    HoldAppend(raised + range, guard, c);
    HoldAppend(raised, range, c);
    RangeHolds(d, c);
    hide HoldAll, InRange;
    HoldNone(c);
    HoldOne(LatchOn(t.id), c);
    HoldOne(RequestIs(t.id), c);
    if guard != [] {
      HoldOne(guard[0], c);
    }
  }

  lemma HoldNone(c: Config)
    ensures HoldAll([], c)
  {
  }

  lemma RangeHolds(d: TransitionDecl, c: Config)
    ensures var steps := if d.rangeStep > 1 || d.rangeStep < -1 then [ArgSteps(d.rangeStart, d.rangeStep)] else [];
            HoldAll([ArgAtLeast(d.rangeStart), ArgAtMost(d.rangeEnd)] + steps, c) <==> InRange(d, c.arg)
  {
    var steps := if d.rangeStep > 1 || d.rangeStep < -1 then [ArgSteps(d.rangeStart, d.rangeStep)] else [];
    HoldAppend([ArgAtLeast(d.rangeStart), ArgAtMost(d.rangeEnd)], steps, c);
    HoldAppend([ArgAtLeast(d.rangeStart)], [ArgAtMost(d.rangeEnd)], c);
    assert [ArgAtLeast(d.rangeStart), ArgAtMost(d.rangeEnd)] == [ArgAtLeast(d.rangeStart)] + [ArgAtMost(d.rangeEnd)];
    HoldOne(ArgAtLeast(d.rangeStart), c);
    HoldOne(ArgAtMost(d.rangeEnd), c);
    if steps != [] {
      HoldOne(steps[0], c);
      SignOfRemainder(Wrap32(c.arg - d.rangeStart), d.rangeStep);
    }
  }

  // The chain picks the reference's first enabled candidate.
  lemma {:induction false} ChainIsReference(m: Machine, s: FlatState, candidates: seq<Applicable>, c: Config)
    requires IsFlat(m.states)
    ensures ChainResult(Branches(m, s, candidates), Calls(ProcessCode(m, s)), c).world
         == match FirstEnabled(candidates, c.world.vars, c.request, c.arg)
            case Some(a) => Fire(m, s, a, c.world)
            case None => c.world.(vars := RunAll(ProcessCode(m, s), c.world.vars))
  {
    hide Enabled, HoldAll, TestsOf, Fire, FireBody, ProcessCode;
    if candidates == [] {
      ExecCalls(ProcessCode(m, s), c);
      return;
    }
    TestsAreEnabled(candidates[0].transition, c);
    if Enabled(candidates[0].transition, c.world.vars, c.request, c.arg) {
      ExecFire(m, s, candidates[0], c);
    } else {
      ChainIsReference(m, s, candidates[1..], c);
      assert Branches(m, s, candidates)[1..] == Branches(m, s, candidates[1..]);
    }
  }

  // ------------------------------------------------------------ the theorem

  lemma GraphAt(initial: seq<Instr>, plans: seq<Plan>, clears: seq<Instr>, i: nat, j: nat)
    requires i < |plans| && j < 3 * |plans[i].branches| + 2
    ensures var blocks, base := Graph(initial, plans, clears), PlanLabel(plans, i);
            base + j < |blocks| && blocks[base + j] == PlanBlocks(plans[i], base)[j]
  {
    PlanAt(plans, |plans|, i, j);
  }

  lemma StatePlaced(initial: seq<Instr>, plans: seq<Plan>, clears: seq<Instr>, i: nat)
    requires i < |plans|
    ensures Placed(Graph(initial, plans, clears), plans[i], PlanLabel(plans, i))
  {
    LabelAtLeast(plans, i);
    GraphAt(initial, plans, clears, i, 3 * |plans[i].branches| + 1);
    forall j | 0 <= j < 3 * |plans[i].branches| + 2
      ensures Graph(initial, plans, clears)[PlanLabel(plans, i) + j] == PlanBlocks(plans[i], PlanLabel(plans, i))[j]
    {
      GraphAt(initial, plans, clears, i, j);
    }
  }

  // What the whole graph does before its end block.
  function GraphResult(initial: seq<Instr>, plans: seq<Plan>, c: Config): Config
  {
    Switched(plans, if c.world.entered then c else ExecBody(initial, c))
  }

  function Switched(plans: seq<Plan>, c: Config): Config
  {
    var i := c.world.active - FIRST_ID;
    if 0 <= i < |plans| then PlanResult(plans[i], c) else c
  }

  function PlanResult(p: Plan, c: Config): Config
  {
    ChainResult(p.branches, p.process, ExecBody(p.head, c))
  }

  lemma ExecPlan(blocks: seq<Block>, clears: seq<Instr>, p: Plan, base: nat, c: Config, fuel: nat)
    requires Placed(blocks, p, base) && blocks[END] == Block(clears, Return)
    requires fuel >= 2 * |p.branches| + 3
    ensures Exec(blocks, base, c, fuel) == Some(ExecBody(clears, PlanResult(p, c)).world)
  {
    assert blocks[base + 0] == PlanBlocks(p, base)[0];
    ExecChain(blocks, clears, p, base, 0, ExecBody(p.head, c), fuel - 1);
    assert p.branches[0..] == p.branches;
  }

  lemma ExecSwitch(initial: seq<Instr>, plans: seq<Plan>, clears: seq<Instr>, c: Config, fuel: nat)
    requires forall i :: 0 <= i < |plans| ==> plans[i].id == i + FIRST_ID
    requires fuel >= |Graph(initial, plans, clears)| - 2
    ensures Exec(Graph(initial, plans, clears), SWITCH_ENTRY, c, fuel)
         == Some(ExecBody(clears, Switched(plans, c)).world)
  {
    hide PlanResult, LayOut;
    var blocks, i := Graph(initial, plans, clears), c.world.active - FIRST_ID;
    CaseOf(plans, |plans|, c.world.active);
    if 0 <= i < |plans| {
      StatePlaced(initial, plans, clears, i);
      ExecPlan(blocks, clears, plans[i], PlanLabel(plans, i), c, fuel - 1);
    } else {
      ExecEnd(blocks, clears, c, fuel - 1);
    }
  }

  // Every block runs at most once, so the size of the graph is fuel enough.
  lemma ExecGraph(initial: seq<Instr>, plans: seq<Plan>, clears: seq<Instr>, c: Config, fuel: nat)
    requires forall i :: 0 <= i < |plans| ==> plans[i].id == i + FIRST_ID
    requires fuel >= |Graph(initial, plans, clears)|
    ensures Exec(Graph(initial, plans, clears), ENTRY, c, fuel)
         == Some(ExecBody(clears, GraphResult(initial, plans, c)).world)
  {
    var blocks := Graph(initial, plans, clears);
    if c.world.entered {
      assert Exec(blocks, ENTRY, c, fuel) == Exec(blocks, SWITCH_ENTRY, c, fuel - 1);
      ExecSwitch(initial, plans, clears, c, fuel - 1);
    } else {
      var c0 := ExecBody(initial, c);
      assert Exec(blocks, ENTRY, c, fuel) == Exec(blocks, INITIAL_ENTRY, c, fuel - 1);
      assert Exec(blocks, INITIAL_ENTRY, c, fuel - 1) == Exec(blocks, SWITCH_ENTRY, c0, fuel - 2);
      ExecSwitch(initial, plans, clears, c0, fuel - 2);
    }
  }

  // ------------------------------------------------------------ the theorem

  lemma PlanIsReference(m: Machine, s: FlatState, c: Config)
    requires IsFlat(m.states)
    ensures PlanResult(PlanOf(m, s), c).world == InState(m, s, c.world)
  {
    hide ChainResult, Fire, FirstEnabled, Branches, TopDown, ProcessCode, IsFlat;
    var updates := Calls(Updates(TopDown(m, s.id)));
    ExecAppend(updates, [LoadRequest], c);
    ExecCalls(Updates(TopDown(m, s.id)), c);
    assert [LoadRequest][1..] == [];
    ChainIsReference(m, s, Candidates(Ancestry(m.states, s.id)), ExecBody(PlanOf(m, s).head, c));
  }

  lemma InitialIsReference(m: Machine, c: Config)
    requires IsFlat(m.states)
    ensures (if c.world.entered then c else ExecBody(InitialCode(m), c)) == c.(world := InitialEntry(m, c.world))
  {
    var calls := Calls(Entries(TopDown(m, m.initialId)));
    ExecAppend(calls, [SetEntered], c);
    ExecCalls(Entries(TopDown(m, m.initialId)), c);
    assert [SetEntered][1..] == [];
  }

  lemma GraphResultIsReference(m: Machine, c: Config)
    requires IsFlat(m.states)
    ensures GraphResult(InitialCode(m), Plans(m), c).world == Acted(m, c.world)
  {
    hide InState, PlanOf, PlanResult, InitialCode;
    InitialIsReference(m, c);
    var w0 := InitialEntry(m, c.world);
    if StateOf(m.states, w0.active).Some? {
      PlanIsReference(m, StateOf(m.states, w0.active).value, c.(world := w0));
    }
  }

  lemma PlanIds(m: Machine)
    requires IsFlat(m.states)
    ensures forall i :: 0 <= i < |Plans(m)| ==> Plans(m)[i].id == i + FIRST_ID
  {
  }

  // Whatever the registers held, the emitted graph reaches its end block and
  // its effect is one reference step.
  lemma GraphIsStep(m: Machine, w: World, request: int, arg: int, extra: nat)
    requires IsFlat(m.states)
    ensures Exec(Program(m), ENTRY, Config(w, request, arg), |Program(m)| + extra) == Some(Step(m, w))
  {
    hide PlanOf, Acted, Plans, Graph, InitialCode;
    var c, plans := Config(w, request, arg), Plans(m);
    PlanIds(m);
    ExecGraph(InitialCode(m), plans, AllLatchClears(m.states), c, |Program(m)| + extra);
    GraphResultIsReference(m, c);
    ExecAllClears(m.states, GraphResult(InitialCode(m), plans, c));
  }
}
