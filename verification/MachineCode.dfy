// The block graph emitted for a state machine, and its execution. The graph
// always reaches its end block and has the effect of one reference step.
module MachineCode {
  import opened Arith
  import opened Machines
  import opened MachineStep
  import opened Wrappers

  datatype Instr =
    | Call(code: Code)
    | SetEntered
    | LoadRequest                         // request and argument, into registers
    | StoreHistory(name: string, id: int)
    | StoreActive(id: int)
    | StoreResumed(name: string, id: int) // the history if set, else the id
    | ClearRequest
    | ClearLatch(id: int)

  // One conjunct of a transition's condition, on the registers, the latches
  // and the variables.
  datatype Test =
    | LatchOn(id: int)
    | RequestIs(id: int)
    | ArgAtLeast(bound: int)
    | ArgAtMost(bound: int)
    | ArgSteps(start: int, step: int) // the signed 32-bit remainder is 0
    | Guard(holds: Vars -> bool)

  datatype Exit =
    | Return
    | Jump(to: nat)
    | IfEntered(yes: nat, no: nat)
    | IfAll(tests: seq<Test>, yes: nat, no: nat)
    | SwitchActive(cases: map<int, nat>, otherwise: nat)

  datatype Block = Block(body: seq<Instr>, exit: Exit)

  const ENTRY := 0
  const INITIAL_ENTRY := 1
  const SWITCH_ENTRY := 2
  const END := 3
  const FIRST_STATE := 4

  // -------------------------------------------------------------- execution

  datatype Config = Config(world: World, request: int, arg: int)

  function ExecInstr(i: Instr, c: Config): Config {
    var w := c.world;
    match i
    case Call(code) => c.(world := w.(vars := code(w.vars)))
    case SetEntered => c.(world := w.(entered := true))
    case LoadRequest => c.(request := w.vars.request, arg := w.vars.requestArg)
    case StoreHistory(name, id) => c.(world := w.(history := w.history[name := id]))
    case StoreActive(id) => c.(world := w.(active := id))
    case StoreResumed(name, id) =>
      var h := HistoryOf(w.history, name);
      c.(world := w.(active := if h != 0 then h else id))
    case ClearRequest => c.(world := w.(vars := w.vars.(request := 0, requestArg := 0)))
    case ClearLatch(id) => c.(world := w.(vars := w.vars.(latches := w.vars.latches - {id})))
  }

  function ExecBody(body: seq<Instr>, c: Config): Config {
    if body == [] then c else ExecBody(body[1..], ExecInstr(body[0], c))
  }

  // The machine's remainder: it has the sign of the dividend.
  function SignedRemainder(a: int, b: int): int
    requires b != 0
  {
    if a >= 0 then a % b else -((-a) % b)
  }

  predicate Holds(t: Test, c: Config) {
    match t
    case LatchOn(id) => id in c.world.vars.latches
    case RequestIs(id) => c.request == id
    case ArgAtLeast(bound) => c.arg >= bound
    case ArgAtMost(bound) => c.arg <= bound
    case ArgSteps(start, step) => step != 0 && SignedRemainder(Wrap32(c.arg - start), step) == 0
    case Guard(holds) => holds(c.world.vars)
  }

  predicate HoldAll(tests: seq<Test>, c: Config) {
    tests == [] || (Holds(tests[0], c) && HoldAll(tests[1..], c))
  }

  function Exec(blocks: seq<Block>, at: nat, c: Config, fuel: nat): Option<World>
    decreases fuel
  {
    if fuel == 0 || at >= |blocks| then None
    else
      var c' := ExecBody(blocks[at].body, c);
      match blocks[at].exit
      case Return => Some(c'.world)
      case Jump(to) => Exec(blocks, to, c', fuel - 1)
      case IfEntered(yes, no) => Exec(blocks, if c'.world.entered then yes else no, c', fuel - 1)
      case IfAll(tests, yes, no) => Exec(blocks, if HoldAll(tests, c') then yes else no, c', fuel - 1)
      case SwitchActive(cases, otherwise) =>
        Exec(blocks, if c'.world.active in cases then cases[c'.world.active] else otherwise, c', fuel - 1)
  }

  // -------------------------------------------------- what the code emits

  function Calls(codes: seq<Code>): seq<Instr> {
    if codes == [] then [] else [Call(codes[0])] + Calls(codes[1..])
  }

  function HistoryStores(states: seq<FlatState>, id: int, active: int): seq<Instr> {
    match StateOf(states, id)
    case None => []
    case Some(s) => if s.decl.resumeLastState then [StoreHistory(s.decl.name, active)] else []
  }

  function ExitOne(states: seq<FlatState>, e: FlatState, active: int): seq<Instr> {
    Calls(e.decl.onExit) + HistoryStores(states, e.parentId, active) + HistoryStores(states, e.id, active)
  }

  function ExitAll(states: seq<FlatState>, exited: seq<FlatState>, active: int): seq<Instr> {
    if exited == [] then [] else ExitOne(states, exited[0], active) + ExitAll(states, exited[1..], active)
  }

  function ActiveStore(m: Machine, target: int): Instr
    requires IsFlat(m.states)
  {
    var leaf := ResolveLeaf(m.states, target, {});
    match StateOf(m.states, target)
    case None => StoreActive(leaf)
    case Some(s) => if s.decl.resumeLastState then StoreResumed(s.decl.name, leaf) else StoreActive(leaf)
  }

  function FireBody(m: Machine, s: FlatState, a: Applicable): seq<Instr>
    requires IsFlat(m.states)
  {
    var exited := ExitedUpTo(Ancestry(m.states, s.id), a.owner.id);
    var entered := TopDown(m, ResolveLeaf(m.states, a.transition.targetId, {}));
    ExitAll(m.states, exited, s.id) + Calls(a.transition.decl.onTransition)
    + [ActiveStore(m, a.transition.targetId), ClearRequest]
    + Calls(Updates(entered)) + Calls(Entries(entered))
  }

  // What a state tests for a transition.
  function TestsOf(t: Transition): seq<Test> {
    var d := t.decl;
    var raised := match d.trigger
                  case Switch(_) => [LatchOn(t.id)]
                  case _ => if d.triggerOnGuard then [] else [RequestIs(t.id)];
    var range := if !d.isGenerator then []
                 else [ArgAtLeast(d.rangeStart), ArgAtMost(d.rangeEnd)]
                      + if -1 <= d.rangeStep <= 1 then [] else [ArgSteps(d.rangeStart, d.rangeStep)];
    raised + range + if d.guard == [] then [] else [Guard(d.guard[|d.guard| - 1])]
  }

  // A transition as a state tests it, with the code that fires it.
  datatype Branch = Branch(tests: seq<Test>, fire: seq<Instr>)

  // Its test, fire and fall-through blocks.
  function BranchBlocks(b: Branch, start: nat): (blocks: seq<Block>)
    ensures |blocks| == 3
  {
    [Block([], IfAll(b.tests, start + 1, start + 2)), Block(b.fire, Jump(END)), Block([], Jump(start + 3))]
  }

  function CandidateBlocks(branches: seq<Branch>, base: nat): (blocks: seq<Block>)
    ensures |blocks| == 3 * |branches|
  {
    if branches == [] then []
    else
      var n := |branches| - 1;
      CandidateBlocks(branches[..n], base) + BranchBlocks(branches[n], base + 3 * n)
  }

  // What is emitted for one state, before it is laid out.
  datatype Plan = Plan(id: int, head: seq<Instr>, branches: seq<Branch>, process: seq<Instr>)

  function PlanBlocks(p: Plan, base: nat): (blocks: seq<Block>)
    ensures |blocks| == 3 * |p.branches| + 2
  {
    [Block(p.head, Jump(base + 1))] + CandidateBlocks(p.branches, base + 1) + [Block(p.process, Jump(END))]
  }

  // Where the n-th state's blocks begin.
  function PlanLabel(plans: seq<Plan>, n: nat): nat
    requires n <= |plans|
  {
    if n == 0 then FIRST_STATE else PlanLabel(plans, n - 1) + 3 * |plans[n - 1].branches| + 2
  }

  function LayOut(plans: seq<Plan>, n: nat): (blocks: seq<Block>)
    requires n <= |plans|
    ensures |blocks| == PlanLabel(plans, n) - FIRST_STATE
  {
    if n == 0 then [] else LayOut(plans, n - 1) + PlanBlocks(plans[n - 1], PlanLabel(plans, n - 1))
  }

  function Cases(plans: seq<Plan>, n: nat): map<int, nat>
    requires n <= |plans|
  {
    if n == 0 then map[] else Cases(plans, n - 1)[plans[n - 1].id := PlanLabel(plans, n - 1)]
  }

  function Graph(initial: seq<Instr>, plans: seq<Plan>, clears: seq<Instr>): seq<Block> {
    [Block([], IfEntered(SWITCH_ENTRY, INITIAL_ENTRY)),
     Block(initial, Jump(SWITCH_ENTRY)),
     Block([], SwitchActive(Cases(plans, |plans|), END)),
     Block(clears, Return)]
    + LayOut(plans, |plans|)
  }

  function Branches(m: Machine, s: FlatState, candidates: seq<Applicable>): (branches: seq<Branch>)
    requires IsFlat(m.states)
    ensures |branches| == |candidates|
    ensures forall i :: 0 <= i < |branches| ==>
              branches[i] == Branch(TestsOf(candidates[i].transition), FireBody(m, s, candidates[i]))
  {
    seq(|candidates|, i requires 0 <= i < |candidates| =>
      Branch(TestsOf(candidates[i].transition), FireBody(m, s, candidates[i])))
  }

  function PlanOf(m: Machine, s: FlatState): Plan
    requires IsFlat(m.states)
  {
    Plan(s.id,
         Calls(Updates(TopDown(m, s.id))) + [LoadRequest],
         Branches(m, s, Candidates(Ancestry(m.states, s.id))),
         Calls(ProcessCode(m, s)))
  }

  function Plans(m: Machine): (plans: seq<Plan>)
    requires IsFlat(m.states)
    ensures |plans| == |m.states|
    ensures forall i :: 0 <= i < |plans| ==> plans[i] == PlanOf(m, m.states[i])
  {
    seq(|m.states|, i requires 0 <= i < |m.states| => PlanOf(m, m.states[i]))
  }

  function InitialCode(m: Machine): seq<Instr>
    requires IsFlat(m.states)
  {
    Calls(Entries(TopDown(m, m.initialId))) + [SetEntered]
  }

  function LatchClears(ts: seq<Transition>): seq<Instr> {
    if ts == [] then []
    else (if ts[0].HasLatch() then [ClearLatch(ts[0].id)] else []) + LatchClears(ts[1..])
  }

  function AllLatchClears(states: seq<FlatState>): seq<Instr> {
    if states == [] then [] else LatchClears(states[0].transitions) + AllLatchClears(states[1..])
  }

  function Program(m: Machine): seq<Block>
    requires IsFlat(m.states)
  {
    Graph(InitialCode(m), Plans(m), AllLatchClears(m.states))
  }

  // --------------------------------------------------------------- emitting

  // A state, then its ancestors: the walk over parent ids.
  method Walk(m: Machine, id: int) returns (chain: seq<FlatState>)
    requires IsFlat(m.states)
    ensures chain == Ancestry(m.states, id)
  {
    chain := [];
    var current := id;
    while current != ROOT_PARENT
      invariant chain + Ancestry(m.states, current) == Ancestry(m.states, id)
      decreases if current == ROOT_PARENT then 0 else if current < 0 then -current + |m.states| else current + 1
    {
      var found := FindState(m.states, current);
      if found.None? {
        break;
      }
      chain := chain + [found.value];
      current := found.value.parentId;
    }
  }

  method TransitionsOf(s: FlatState) returns (owned: seq<Applicable>)
    ensures owned == Owned(s, s.transitions)
  {
    owned := [];
    for k := 0 to |s.transitions|
      invariant owned + Owned(s, s.transitions[k..]) == Owned(s, s.transitions)
    {
      assert s.transitions[k..][1..] == s.transitions[k + 1..];
      owned := owned + [Applicable(s.transitions[k], s)];
    }
  }

  method Collect(m: Machine, id: int) returns (candidates: seq<Applicable>)
    requires IsFlat(m.states)
    ensures candidates == Candidates(Ancestry(m.states, id))
  {
    hide Ancestry, Candidates, Owned;
    var chain := Walk(m, id);
    candidates := [];
    for i := 0 to |chain|
      invariant candidates + Candidates(chain[i..]) == Candidates(chain)
    {
      CandidatesFrom(chain, i);
      var owned := TransitionsOf(chain[i]);
      candidates := candidates + owned;
    }
    CandidatesFrom(chain, |chain|);
  }

  lemma CandidatesFrom(chain: seq<FlatState>, i: nat)
    requires i <= |chain|
    ensures Candidates(chain[i..])
         == if i == |chain| then [] else Owned(chain[i], chain[i].transitions) + Candidates(chain[i + 1..])
  {
    hide Owned;
    if i < |chain| {
      assert chain[i..][1..] == chain[i + 1..];
    }
  }

  method Exited(m: Machine, id: int, owner: int) returns (exited: seq<FlatState>)
    requires IsFlat(m.states)
    ensures exited == ExitedUpTo(Ancestry(m.states, id), owner)
  {
    var chain := Walk(m, id);
    exited := [];
    for i := 0 to |chain|
      invariant exited + ExitedUpTo(chain[i..], owner) == ExitedUpTo(chain, owner)
    {
      assert chain[i..][1..] == chain[i + 1..];
      exited := exited + [chain[i]];
      if chain[i].id == owner {
        return;
      }
    }
  }

  method EmitExits(m: Machine, exited: seq<FlatState>, active: int) returns (body: seq<Instr>)
    ensures body == ExitAll(m.states, exited, active)
  {
    hide ExitOne;
    body := [];
    for i := 0 to |exited|
      invariant body + ExitAll(m.states, exited[i..], active) == ExitAll(m.states, exited, active)
    {
      assert exited[i..][1..] == exited[i + 1..];
      body := body + ExitOne(m.states, exited[i], active);
    }
  }

  method EmitFire(m: Machine, s: FlatState, a: Applicable) returns (body: seq<Instr>)
    requires IsFlat(m.states)
    ensures body == FireBody(m, s, a)
  {
    var exited := Exited(m, s.id, a.owner.id);
    var exits := EmitExits(m, exited, s.id);
    var ancestry := Walk(m, ResolveLeaf(m.states, a.transition.targetId, {}));
    var entered := Reverse(ancestry);
    body := exits + Calls(a.transition.decl.onTransition)
            + [ActiveStore(m, a.transition.targetId), ClearRequest]
            + Calls(Updates(entered)) + Calls(Entries(entered));
  }

  // The condition is built up conjunct by conjunct.
  method EmitTests(t: Transition) returns (tests: seq<Test>)
    ensures tests == TestsOf(t)
  {
    tests := [];
    if t.HasLatch() {
      tests := [LatchOn(t.id)];
    } else if !t.decl.triggerOnGuard {
      tests := [RequestIs(t.id)];
    }
    if t.decl.isGenerator {
      tests := tests + [ArgAtLeast(t.decl.rangeStart), ArgAtMost(t.decl.rangeEnd)];
      if t.decl.rangeStep > 1 || t.decl.rangeStep < -1 {
        tests := tests + [ArgSteps(t.decl.rangeStart, t.decl.rangeStep)];
      }
    }
    if |t.decl.guard| > 0 {
      tests := tests + [Guard(t.decl.guard[|t.decl.guard| - 1])];
    }
  }

  method EmitPlan(m: Machine, s: FlatState) returns (p: Plan)
    requires IsFlat(m.states)
    ensures p == PlanOf(m, s)
  {
    hide FireBody, Ancestry, Candidates, ProcessCode, Calls, Updates, IsFlat;
    var ancestry := Walk(m, s.id);
    var candidates := Collect(m, s.id);
    var branches := [];
    for i := 0 to |candidates|
      invariant |branches| == i
      invariant forall k :: 0 <= k < i ==>
                  branches[k] == Branch(TestsOf(candidates[k].transition), FireBody(m, s, candidates[k]))
    {
      var tests := EmitTests(candidates[i].transition);
      var fire := EmitFire(m, s, candidates[i]);
      branches := branches + [Branch(tests, fire)];
    }
    assert branches == Branches(m, s, candidates);
    p := Plan(s.id, Calls(Updates(Reverse(ancestry))) + [LoadRequest], branches, Calls(ProcessCode(m, s)));
  }

  // The chain of test, fire and fall-through blocks, block by block.
  method EmitChain(p: Plan, base: nat) returns (code: seq<Block>)
    ensures code == PlanBlocks(p, base)
  {
    var tests: seq<Block> := [];
    for i := 0 to |p.branches|
      invariant tests == CandidateBlocks(p.branches[..i], base + 1)
    {
      assert p.branches[..i + 1][..i] == p.branches[..i];
      var b, start := p.branches[i], base + 1 + |tests|;
      tests := tests + [Block([], IfAll(b.tests, start + 1, start + 2)),
                        Block(b.fire, Jump(END)),
                        Block([], Jump(start + 3))];
    }
    assert p.branches[..|p.branches|] == p.branches;
    code := [Block(p.head, Jump(base + 1))] + tests + [Block(p.process, Jump(END))];
  }

  // The states' blocks one after the other, each with its case of the switch.
  method EmitStates(m: Machine) returns (code: seq<Block>, cases: map<int, nat>)
    requires IsFlat(m.states)
    ensures code == LayOut(Plans(m), |m.states|)
    ensures cases == Cases(Plans(m), |m.states|)
  {
    hide PlanOf, IsFlat, PlanBlocks;
    code, cases := [], map[];
    for i := 0 to |m.states|
      invariant code == LayOut(Plans(m), i)
      invariant cases == Cases(Plans(m), i)
    {
      var plan := EmitPlan(m, m.states[i]);
      var base := FIRST_STATE + |code|;
      var more := EmitChain(plan, base);
      code := code + more;
      cases := cases[plan.id := base];
    }
  }

  method ClearsOf(m: Machine) returns (clears: seq<Instr>)
    ensures clears == AllLatchClears(m.states)
  {
    clears := [];
    for i := 0 to |m.states|
      invariant clears + AllLatchClears(m.states[i..]) == AllLatchClears(m.states)
    {
      assert m.states[i..][1..] == m.states[i + 1..];
      clears := clears + LatchClears(m.states[i].transitions);
    }
  }

  // The switch gets its cases as the states are emitted, the end block its
  // latch clears last.
  method Emit(m: Machine) returns (blocks: seq<Block>)
    requires IsFlat(m.states)
    ensures blocks == Program(m)
  {
    var ancestry := Walk(m, m.initialId);
    var initial := Block(Calls(Entries(Reverse(ancestry))) + [SetEntered], Jump(SWITCH_ENTRY));
    var code, cases := EmitStates(m);
    var clears := ClearsOf(m);
    blocks := [Block([], IfEntered(SWITCH_ENTRY, INITIAL_ENTRY)), initial,
               Block([], SwitchActive(cases, END)), Block(clears, Return)] + code;
  }
}
